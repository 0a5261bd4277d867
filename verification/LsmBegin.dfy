// Starting a compaction: the chosen inputs and the outputs written from them satisfy
// everything that installing the outputs will rely on.
module LsmBegin {
  import opened DbFormat
  import opened Tables
  import opened VersionSearch
  import opened DropRules
  import opened CompactionInputs
  import opened LsmState

  // The outputs hold the given entries in order, cut into nonempty files at any places,
  // with consecutive numbers.
  predicate OutputFiles(outputs: seq<File>, es: seq<Entry>, first: nat) {
    if outputs == [] then es == []
    else
      var o := outputs[0];
      && o.entries != [] && o.entries <= es
      && o == MakeFile(first, o.size, o.entries)
      && OutputFiles(outputs[1..], es[|o.entries|..], first + 1)
  }

  lemma SortedSlice(es: seq<Entry>, n: nat)
    requires Sorted(es) && n <= |es|
    ensures Sorted(es[..n]) && Sorted(es[n..])
    ensures forall x, y :: x in es[..n] && y in es[n..] ==> Less(x.key, y.key)
  {
  }

  lemma {:induction false} OutputFilesHold(outputs: seq<File>, es: seq<Entry>, first: nat)
    requires OutputFiles(outputs, es, first)
    ensures forall e :: (exists o :: o in outputs && e in o.entries) <==> e in es
  {
    if outputs != [] {
      var n := |outputs[0].entries|;
      assert es == es[..n] + es[n..] && outputs == [outputs[0]] + outputs[1..];
      OutputFilesHold(outputs[1..], es[n..], first + 1);
      assert forall o :: o in outputs <==> o == outputs[0] || o in outputs[1..];
      forall e | e in es[n..] ensures exists o :: o in outputs && e in o.entries {
        var o :| o in outputs[1..] && e in o.entries;
        assert o in outputs;
      }
      forall e | e in es[..n] ensures exists o :: o in outputs && e in o.entries {
        assert e in outputs[0].entries;
      }
    }
  }

  lemma {:induction false} OutputFilesAreGood(outputs: seq<File>, es: seq<Entry>, first: nat)
    requires Sorted(es) && OutputFiles(outputs, es, first)
    ensures forall o :: o in outputs ==> WellFormed(o) && first <= o.number < first + |outputs|
    ensures forall o, p :: o in outputs && p in outputs && o.number == p.number ==> o == p
    ensures Disjoint(outputs)
  {
    if outputs != [] {
      var n := |outputs[0].entries|;
      var tail := outputs[1..];
      SortedSlice(es, n);
      assert outputs[0].entries == es[..n] && outputs == [outputs[0]] + tail;
      OutputFilesAreGood(tail, es[n..], first + 1);
      OutputFilesHold(tail, es[n..], first + 1);
      forall o | o in tail ensures Before(outputs[0], o) {
        assert o.entries[0] in o.entries;
        assert es[..n][n - 1] in es[..n];
      }
    }
  }

  // The second file continues the user key that the first one ends with.
  predicate Continues(f: File, g: File) {
    Before(f, g) && f.largest.user == g.smallest.user
  }

  // The file stays in the level although it continues one of the chosen files.
  ghost predicate ContinuesInput(levels: Levels, l: nat, chosen: seq<File>, f: File)
    requires l < NUM_LEVELS
  {
    f in levels[l] && f.number !in Numbers(chosen) && exists g :: g in chosen && Continues(g, f)
  }

  // No user key is split between an input and a file that stays.
  ghost predicate NoSplit(levels: Levels, level: nat, in0: seq<File>, in1: seq<File>)
    requires level + 1 < NUM_LEVELS
  {
    forall f :: !ContinuesInput(levels, level, in0, f) && !ContinuesInput(levels, level + 1, in1, f)
  }

  ghost predicate NewestInput(job: Job, user: UserKey, sequence: nat, e: Entry) {
    && InInputs(job, e) && e.key.user == user && e.key.sequence <= sequence
    && forall o :: InInputs(job, o) && o.key.user == user && o.key.sequence <= sequence ==> o.key.sequence <= e.key.sequence
  }

  // The second drop rule applies to the entry.
  predicate DropsDeletion(levels: Levels, job: Job, e: Entry) {
    e.key.kind.Deletion? && e.key.sequence <= job.smallestSnapshot && BaseLevel(levels, job.level, e.key.user)
  }

  // The compaction may split user keys, as far as readers are concerned.  A file that
  // stays at the compaction's level must not have a user key left in the outputs: the
  // newest input entry for the key is a deletion that is dropped, and readers see a newer
  // entry instead.  Next to a file that stays at the output level, any deletion that is
  // dropped must be one that readers see overwritten.
  ghost predicate SplitsHarmlessly(db: Db, job: Job)
    requires job.level + 1 < NUM_LEVELS
  {
    && (forall f :: ContinuesInput(db.levels, job.level, job.in0, f) ==>
          exists e :: NewestInput(job, f.smallest.user, MAX_SEQUENCE, e) && DropsDeletion(db.levels, job, e)
                      && Overwritten(db, job.smallestSnapshot, e))
    && (forall f, e :: ContinuesInput(db.levels, job.level + 1, job.in1, f)
                       && NewestInput(job, f.smallest.user, job.smallestSnapshot, e) && DropsDeletion(db.levels, job, e) ==>
          Overwritten(db, job.smallestSnapshot, e))
  }

  // Every entry of the files was written under its own sequence number.
  ghost predicate OneWriteEach(levels: Levels) {
    forall x, y :: InFiles(levels, x) && InFiles(levels, y) && x.key.sequence == y.key.sequence ==> x == y
  }

  lemma HistoryGivesOneWriteEach(db: Db, h: seq<Entry>)
    requires FromHistory(db, h)
    ensures OneWriteEach(db.levels)
  {
    assert forall x :: InFiles(db.levels, x) ==> Holds(db, x);
  }

  lemma DisjointMembers(fs: seq<File>, f: File, g: File)
    requires Disjoint(fs) && f in fs && g in fs && f != g
    ensures Before(f, g) || Before(g, f)
  {
    var i :| 0 <= i < |fs| && fs[i] == f;
    var j :| 0 <= j < |fs| && fs[j] == g;
    if i < j { assert Before(fs[i], fs[j]); } else { assert Before(fs[j], fs[i]); }
  }

  // In a sorted level a file shares a user key only with a neighbour, and the earlier one
  // has the newer entries.
  lemma UnsplitIsNewer(levels: Levels, level: nat, f: File, g: File)
    requires AllWellFormed(levels) && OneWriteEach(levels) && level < NUM_LEVELS
    requires f in levels[level] && g in levels[level]
    requires (Before(f, g) || Before(g, f)) && !Continues(g, f)
    ensures Newer(f.entries, g.entries)
  {
    forall x, y | x in f.entries && y in g.entries && x.key.user == y.key.user ensures x.key.sequence > y.key.sequence {
      FileRange(f, x);
      FileRange(g, y);
      assert InFiles(levels, x) && InFiles(levels, y);
      LessIsTotalOrder(x.key, y.key, x.key);
    }
  }

  lemma ApartShareNoKey(f: File, g: File, hull: Range)
    requires WellFormed(f) && WellFormed(g) && Within(g, hull) && !Overlaps(f, hull)
    ensures Newer(f.entries, g.entries)
  {
    forall x, y | x in f.entries && y in g.entries ensures x.key.user != y.key.user {
      FileRange(f, x);
      FileRange(g, y);
    }
  }

  lemma MembersAreNumbered(fs: seq<File>)
    ensures forall f :: f in fs ==> f.number in Numbers(fs)
  {
  }

  lemma BystanderOfLevelIsNewer(levels: Levels, job: Job, hull: Range, f: File, g: File)
    requires AllWellFormed(levels) && OneWriteEach(levels) && LayeredByAge(levels) && job.level + 1 < NUM_LEVELS
    requires job.level > 0 ==> Disjoint(levels[job.level])
    requires Selected(levels, job.level, job.in0, job.in1, hull)
    requires job.level > 0 && g in job.in0 ==> !Continues(g, f)
    requires f in levels[job.level] && f !in job.in0 && IsInput(job, g)
    ensures Newer(f.entries, g.entries)
  {
    if g in job.in0 {
      if job.level == 0 {
        ApartShareNoKey(f, g, hull);
      } else {
        DisjointMembers(levels[job.level], f, g);
        UnsplitIsNewer(levels, job.level, f, g);
      }
    } else {
      assert g in levels[job.level + 1];
    }
  }

  lemma BystanderOfNextIsNewer(levels: Levels, job: Job, hull: Range, f: File, g: File)
    requires AllWellFormed(levels) && OneWriteEach(levels) && job.level + 1 < NUM_LEVELS
    requires Disjoint(levels[job.level + 1])
    requires Selected(levels, job.level, job.in0, job.in1, hull)
    requires g in job.in1 ==> !Continues(g, f)
    requires f in levels[job.level + 1] && f !in job.in1 && IsInput(job, g)
    ensures Newer(f.entries, g.entries)
  {
    if g in job.in1 {
      DisjointMembers(levels[job.level + 1], f, g);
      UnsplitIsNewer(levels, job.level + 1, f, g);
    } else {
      ApartShareNoKey(f, g, hull);
    }
  }

  // A file that stays and is not newer than an input shares exactly one user key with it,
  // the one that it continues.
  lemma OlderBystander(levels: Levels, job: Job, hull: Range, f: File, g: File, x: Entry, y: Entry)
    requires Layered(levels) && OneWriteEach(levels)
    requires Selected(levels, job.level, job.in0, job.in1, hull)
    requires Bystander(levels, job, f) && IsInput(job, g)
    requires x in f.entries && y in g.entries && x.key.user == y.key.user && x.key.sequence <= y.key.sequence
    ensures f.smallest.user == y.key.user
    ensures ContinuesInput(levels, job.level, job.in0, f) || ContinuesInput(levels, job.level + 1, job.in1, f)
    ensures f in levels[job.level] && f.number !in Numbers(job.in0) ==> ContinuesInput(levels, job.level, job.in0, f)
  {
    MembersAreNumbered(job.in0);
    MembersAreNumbered(job.in1);
    assert g in levels[job.level] || g in levels[job.level + 1];
    FileRange(g, y);
    FileRange(f, x);
    if f in levels[job.level] && f.number !in Numbers(job.in0) {
      if !(g in job.in0 && Continues(g, f)) { BystanderOfLevelIsNewer(levels, job, hull, f, g); }
    } else {
      if !(g in job.in1 && Continues(g, f)) { BystanderOfNextIsNewer(levels, job, hull, f, g); }
    }
  }

  // Everything the compaction reads lies on one side of a file that stays.
  lemma InputsOnOneSide(levels: Levels, job: Job, hull: Range, f: File, e: Entry)
    requires AllWellFormed(levels) && Selected(levels, job.level, job.in0, job.in1, hull)
    requires Disjoint(levels[job.level + 1])
    requires f in levels[job.level + 1] && f.number !in Numbers(job.in1)
    requires InInputs(job, e)
    ensures !Overlaps(f, hull)
    ensures if f.largest.user < hull.lo.value then Less(f.largest, e.key) else Less(e.key, f.smallest)
  {
    MembersAreNumbered(job.in1);
    var g :| IsInput(job, g) && e in g.entries;
    assert WellFormed(g) && WellFormed(f);
    FileRange(g, e);
    FileRange(f, f.entries[0]);
    if g in job.in1 {
      DisjointMembers(levels[job.level + 1], f, g);
      FileRange(g, g.entries[0]);
    } else {
      assert Within(g, hull);
    }
  }

  lemma SelectedOutputsFit(levels: Levels, job: Job, hull: Range)
    requires AllWellFormed(levels) && Selected(levels, job.level, job.in0, job.in1, hull)
    requires Disjoint(levels[job.level + 1])
    requires forall o :: o in job.outputs ==> WellFormed(o)
    requires forall e :: InOutputs(job, e) ==> InInputs(job, e)
    ensures OutputsFit(levels, job)
  {
    forall f, o | f in levels[job.level + 1] && f.number !in Numbers(job.in1) && o in job.outputs
      ensures Before(f, o) || Before(o, f)
    {
      var first, last := o.entries[0], o.entries[|o.entries| - 1];
      assert first in o.entries && last in o.entries;
      assert InOutputs(job, first) && InOutputs(job, last);
      InputsOnOneSide(levels, job, hull, f, first);
      InputsOnOneSide(levels, job, hull, f, last);
    }
  }

  // ---------- The drop rules ----------

  // The merged input: everything in the input files, in order.
  ghost predicate Merges(job: Job, es: seq<Entry>) {
    Sorted(es) && forall e :: e in es <==> InInputs(job, e)
  }

  predicate DistinctSequences(es: seq<Entry>) {
    forall x, y :: x in es && y in es && x.key.sequence == y.key.sequence ==> x == y
  }

  lemma EarlierIsNewer(es: seq<Entry>, i: nat, j: nat)
    requires Sorted(es) && DistinctSequences(es) && i < j < |es| && es[i].key.user == es[j].key.user
    ensures es[i].key.sequence > es[j].key.sequence
  {
    assert Less(es[i].key, es[j].key);
    assert es[i] in es && es[j] in es;
  }

  lemma ObsoleteLeavesNothingOlder(levels: Levels, es: seq<Entry>, i: nat, p: SequenceNumber, level: nat, o: Entry)
    requires Sorted(es) && DistinctSequences(es) && i < |es| && es[i].key.sequence <= p
    requires o in Survivors(es, p, levels, level) && o.key.user == es[i].key.user && o != es[i]
    ensures o.key.sequence > es[i].key.sequence
  {
    var j :| 0 <= j < |es| && es[j] == o;
    if j < i {
      EarlierIsNewer(es, j, i);
    } else {
      OlderAreHidden(es, i, j, p);
      SurvivorsAreKept(es, j, p, levels, level);
    }
  }

  lemma BaseLevelHasNoEntry(levels: Levels, level: nat, user: UserKey)
    requires AllWellFormed(levels) && BaseLevel(levels, level, user)
    ensures forall l, f, o :: level + 2 <= l < NUM_LEVELS && f in levels[l] && o in f.entries ==> o.key.user != user
  {
    forall l, f, o | level + 2 <= l < NUM_LEVELS && f in levels[l] && o in f.entries ensures o.key.user != user {
      assert !RangeHas(f, user);
      FileRange(f, o);
    }
  }

  lemma UnhiddenIsNewest(job: Job, es: seq<Entry>, i: nat)
    requires Merges(job, es) && DistinctSequences(es) && i < |es|
    requires es[i].key.sequence <= job.smallestSnapshot && !Hidden(es, i, job.smallestSnapshot)
    ensures NewestInput(job, es[i].key.user, job.smallestSnapshot, es[i])
  {
    assert es[i] in es;
    forall o | InInputs(job, o) && o.key.user == es[i].key.user && o.key.sequence <= job.smallestSnapshot
      ensures o.key.sequence <= es[i].key.sequence
    {
      var j :| 0 <= j < |es| && es[j] == o;
      if j < i { OlderAreHidden(es, j, i, job.smallestSnapshot); }
      if i < j { EarlierIsNewer(es, i, j); }
    }
  }

  lemma OneNewestInput(job: Job, es: seq<Entry>, user: UserKey, e: Entry, o: Entry)
    requires Merges(job, es) && DistinctSequences(es)
    requires NewestInput(job, user, MAX_SEQUENCE, e) && e.key.sequence <= job.smallestSnapshot
    requires NewestInput(job, user, job.smallestSnapshot, o)
    ensures e == o
  {
  }

  // When the newest entry for a user key is dropped as a deletion, no entry for it is left.
  lemma VanishedKeyHasNoSurvivor(levels: Levels, job: Job, es: seq<Entry>, e: Entry, y: Entry)
    requires Merges(job, es) && DistinctSequences(es)
    requires NewestInput(job, y.key.user, MAX_SEQUENCE, e) && DropsDeletion(levels, job, e)
    ensures y !in Survivors(es, job.smallestSnapshot, levels, job.level)
  {
    var p := job.smallestSnapshot;
    if y in Survivors(es, p, levels, job.level) {
      var j :| 0 <= j < |es| && es[j] == y;
      SurvivorsAreKept(es, j, p, levels, job.level);
      UnhiddenIsNewest(job, es, j);
      OneNewestInput(job, es, y.key.user, e, y);
    }
  }

  lemma ObsoleteOrOverwritten(db: Db, job: Job, hull: Range, es: seq<Entry>, i: nat, f: File, o: Entry)
    requires Layered(db.levels) && OneWriteEach(db.levels)
    requires Selected(db.levels, job.level, job.in0, job.in1, hull) && SplitsHarmlessly(db, job)
    requires Merges(job, es) && DistinctSequences(es) && i < |es|
    requires !Hidden(es, i, job.smallestSnapshot) && DropsDeletion(db.levels, job, es[i])
    requires Bystander(db.levels, job, f) && o in f.entries && o.key.user == es[i].key.user
    ensures o.key.sequence > es[i].key.sequence || Overwritten(db, job.smallestSnapshot, es[i])
  {
    var e := es[i];
    assert e in es;
    UnhiddenIsNewest(job, es, i);
    if o.key.sequence <= e.key.sequence {
      var g :| IsInput(job, g) && e in g.entries;
      OlderBystander(db.levels, job, hull, f, g, o, e);
      if ContinuesInput(db.levels, job.level, job.in0, f) {
        var newest :| NewestInput(job, f.smallest.user, MAX_SEQUENCE, newest) && DropsDeletion(db.levels, job, newest)
                      && Overwritten(db, job.smallestSnapshot, newest);
        OneNewestInput(job, es, f.smallest.user, newest, e);
      }
    }
  }

  lemma DroppedForAReason(db: Db, job: Job, hull: Range, es: seq<Entry>, e: Entry)
    requires Layered(db.levels) && OneWriteEach(db.levels)
    requires Selected(db.levels, job.level, job.in0, job.in1, hull) && SplitsHarmlessly(db, job)
    requires Merges(job, es) && DistinctSequences(es) && (forall o :: o in es ==> Holds(db, o))
    requires forall o :: InOutputs(job, o) <==> o in Survivors(es, job.smallestSnapshot, db.levels, job.level)
    requires InInputs(job, e) && !InOutputs(job, e)
    ensures Overwritten(db, job.smallestSnapshot, e) || DroppedAsObsolete(db.levels, job, e)
  {
    hide Layered, OneWriteEach, SplitsHarmlessly, Bystander, Survivors;
    var p := job.smallestSnapshot;
    var i :| 0 <= i < |es| && es[i] == e;
    SurvivorsAreKept(es, i, p, db.levels, job.level);
    if Hidden(es, i, p) {
      EarlierIsNewer(es, i - 1, i);
      assert es[i - 1] in es;
    } else if !Overwritten(db, p, e) {
      LayeredIsWellFormed(db.levels);
      BaseLevelHasNoEntry(db.levels, job.level, e.key.user);
      forall o | InOutputs(job, o) && o.key.user == e.key.user ensures o.key.sequence > e.key.sequence {
        ObsoleteLeavesNothingOlder(db.levels, es, i, p, job.level, o);
      }
      forall f, o | Bystander(db.levels, job, f) && o in f.entries && o.key.user == e.key.user ensures o.key.sequence > e.key.sequence {
        ObsoleteOrOverwritten(db, job, hull, es, i, f, o);
      }
    }
  }

  lemma LayeredIsWellFormed(levels: Levels)
    requires Layered(levels)
    ensures AllWellFormed(levels)
  {
  }

  lemma SelectedOutputsOlder(db: Db, job: Job, hull: Range, es: seq<Entry>)
    requires Layered(db.levels) && OneWriteEach(db.levels)
    requires Selected(db.levels, job.level, job.in0, job.in1, hull) && SplitsHarmlessly(db, job)
    requires Merges(job, es) && DistinctSequences(es)
    requires forall o :: InOutputs(job, o) <==> o in Survivors(es, job.smallestSnapshot, db.levels, job.level)
    ensures OutputsAreOlder(db.levels, job)
  {
    hide Layered, OneWriteEach, Survivors;
    forall f, o | f in db.levels[job.level] && f.number !in Numbers(job.in0) && o in job.outputs ensures Newer(f.entries, o.entries) {
      forall x, y | x in f.entries && y in o.entries && x.key.user == y.key.user ensures x.key.sequence > y.key.sequence {
        assert InOutputs(job, y) && y in es;
        var g :| IsInput(job, g) && y in g.entries;
        if x.key.sequence <= y.key.sequence {
          OlderBystander(db.levels, job, hull, f, g, x, y);
          var e :| NewestInput(job, f.smallest.user, MAX_SEQUENCE, e) && DropsDeletion(db.levels, job, e);
          VanishedKeyHasNoSurvivor(db.levels, job, es, e, y);
        }
      }
    }
  }

  // ---------- The two ways a compaction starts ----------

  // What DoCompactionWork does between choosing the inputs and installing the results:
  // merge the inputs, drop entries, and write the rest to new files.
  ghost predicate Compacts(db: Db, job: Job, es: seq<Entry>) {
    && job.smallestSnapshot == db.OldestReadPoint()
    && Merges(job, es)
    && OutputFiles(job.outputs, Survivors(es, job.smallestSnapshot, db.levels, job.level), db.nextFile)
  }

  function Begin(db: Db, job: Job): Db {
    db.(job := Some(job), nextFile := db.nextFile + |job.outputs|)
  }

  lemma HeldSequencesDistinct(db: Db, h: seq<Entry>, job: Job, es: seq<Entry>)
    requires FromHistory(db, h) && Merges(job, es)
    requires job.level + 1 < NUM_LEVELS
    requires forall f :: f in job.in0 ==> f in db.levels[job.level]
    requires forall f :: f in job.in1 ==> f in db.levels[job.level + 1]
    ensures DistinctSequences(es)
    ensures forall e :: e in es ==> Holds(db, e) && e.key.sequence <= db.lastSequence
  {
    forall e | e in es ensures Holds(db, e) && Wrote(h, e) {
      var g :| IsInput(job, g) && e in g.entries;
      assert g in db.levels[job.level] || g in db.levels[job.level + 1];
      assert Holds(db, e);
    }
  }

  lemma CompactionOutputsOk(db: Db, job: Job, es: seq<Entry>)
    requires NumbersOk(db.levels, db.nextFile) && job.level + 1 < NUM_LEVELS
    requires Compacts(db, job, es)
    ensures OutputsOk(db.levels, db.nextFile + |job.outputs|, job)
    ensures forall o :: InOutputs(job, o) <==> o in Survivors(es, job.smallestSnapshot, db.levels, job.level)
  {
    var kept := Survivors(es, job.smallestSnapshot, db.levels, job.level);
    SurvivorsSorted(es, job.smallestSnapshot, db.levels, job.level);
    OutputFilesAreGood(job.outputs, kept, db.nextFile);
    OutputFilesHold(job.outputs, kept, db.nextFile);
    assert forall o :: InOutputs(job, o) <==> o in kept;
  }

  lemma CompactionDropsOk(db: Db, job: Job, hull: Range, es: seq<Entry>)
    requires Layered(db.levels) && OneWriteEach(db.levels)
    requires Selected(db.levels, job.level, job.in0, job.in1, hull) && SplitsHarmlessly(db, job)
    requires Merges(job, es) && DistinctSequences(es) && (forall o :: o in es ==> Holds(db, o))
    requires forall o :: InOutputs(job, o) <==> o in Survivors(es, job.smallestSnapshot, db.levels, job.level)
    ensures DropsOk(Begin(db, job), job)
  {
    hide Layered, OneWriteEach, SplitsHarmlessly, Merges, DroppedAsObsolete, Survivors;
    forall e | InInputs(job, e) && !InOutputs(job, e)
      ensures Overwritten(Begin(db, job), job.smallestSnapshot, e) || DroppedAsObsolete(db.levels, job, e)
    {
      DroppedForAReason(db, job, hull, es, e);
      SameOverwritten(db, Begin(db, job), job.smallestSnapshot, e);
    }
  }

  lemma SameOverwritten(db: Db, after: Db, readPoint: nat, e: Entry)
    requires db.mem == after.mem && db.imm == after.imm && db.levels == after.levels
    ensures Overwritten(db, readPoint, e) <==> Overwritten(after, readPoint, e)
  {
    assert forall o :: Holds(db, o) <==> Holds(after, o);
  }

  lemma BeginMakesJobOk(db: Db, h: seq<Entry>, job: Job, es: seq<Entry>, hull: Range)
    requires Layered(db.levels) && NumbersOk(db.levels, db.nextFile) && FromHistory(db, h)
    requires Selected(db.levels, job.level, job.in0, job.in1, hull) && SplitsHarmlessly(db, job)
    requires Compacts(db, job, es)
    ensures JobOk(Begin(db, job), job)
  {
    hide Layered, AllWellFormed, SplitsHarmlessly, OutputFiles, Survivors, DropsOk, OutputsAreOlder, OutputsFit, OutputsOk,
         NumbersOk, FromHistory, OneWriteEach, Disjoint, DistinctSequences, InOutputs, InInputs, Overlapping, WellFormed, Spans;
    LayeredIsWellFormed(db.levels);
    HistoryGivesOneWriteEach(db, h);
    HeldSequencesDistinct(db, h, job, es);
    CompactionOutputsOk(db, job, es);
    InputsOfOutputs(db.levels, job, es);
    CompactionDropsOk(db, job, hull, es);
    SelectedOutputsOlder(db, job, hull, es);
    NextLevelIsDisjoint(db.levels, job.level + 1);
    GoodOutputs(db.levels, db.nextFile + |job.outputs|, job);
    SelectedOutputsFit(db.levels, job, hull);
  }

  lemma InputsOfOutputs(levels: Levels, job: Job, es: seq<Entry>)
    requires Merges(job, es)
    requires forall o :: InOutputs(job, o) <==> o in Survivors(es, job.smallestSnapshot, levels, job.level)
    ensures forall e :: InOutputs(job, e) ==> InInputs(job, e)
  {
  }

  lemma NextLevelIsDisjoint(levels: Levels, l: nat)
    requires Layered(levels) && 1 <= l < NUM_LEVELS
    ensures Disjoint(levels[l])
  {
  }

  lemma GoodOutputs(levels: Levels, nextFile: nat, job: Job)
    requires job.level + 1 < NUM_LEVELS && OutputsOk(levels, nextFile, job)
    ensures forall o :: o in job.outputs ==> WellFormed(o)
  {
  }

  // A trivial move: the one input file becomes the output.
  function MoveJob(db: Db, level: nat, f: File): Job {
    Job(level, [f], [], [f], db.OldestReadPoint())
  }

  lemma MoveMovesAll(db: Db, level: nat, f: File)
    ensures forall e :: InOutputs(MoveJob(db, level, f), e) <==> e in f.entries
    ensures forall e :: InInputs(MoveJob(db, level, f), e) <==> e in f.entries
  {
    var job := MoveJob(db, level, f);
    assert IsInput(job, f) && f in job.outputs;
  }

  lemma MoveOutputOk(db: Db, level: nat, f: File)
    requires AllWellFormed(db.levels) && NumbersOk(db.levels, db.nextFile)
    requires level + 1 < NUM_LEVELS && f in db.levels[level]
    ensures OutputsOk(db.levels, db.nextFile, MoveJob(db, level, f))
  {
    MoveMovesAll(db, level, f);
  }

  lemma MoveOutputIsOlder(db: Db, level: nat, f: File, hull: Range)
    requires Layered(db.levels) && OneWriteEach(db.levels)
    requires Selected(db.levels, level, [f], [], hull) && NoSplit(db.levels, level, [f], [])
    ensures OutputsAreOlder(db.levels, MoveJob(db, level, f))
  {
    hide Layered, OneWriteEach;
    var job := MoveJob(db, level, f);
    forall g | g in db.levels[level] && g.number !in Numbers([f]) ensures Newer(g.entries, f.entries) {
      assert IsInput(job, f) && Bystander(db.levels, job, g);
      forall x, y | x in g.entries && y in f.entries && x.key.user == y.key.user ensures x.key.sequence > y.key.sequence {
        if x.key.sequence <= y.key.sequence { OlderBystander(db.levels, job, hull, g, f, x, y); }
      }
    }
  }

  lemma MoveIsOk(db: Db, level: nat, f: File, hull: Range)
    requires Layered(db.levels) && NumbersOk(db.levels, db.nextFile) && OneWriteEach(db.levels)
    requires Selected(db.levels, level, [f], [], hull)
    requires NoSplit(db.levels, level, [f], [])
    ensures JobOk(db, MoveJob(db, level, f))
  {
    hide NoSplit, OutputsAreOlder, Layered, AllWellFormed, OneWriteEach, NumbersOk, OutputsOk, OutputsFit, Disjoint, Newer, WellFormed, Spans, Overlapping;
    var job := MoveJob(db, level, f);
    LayeredIsWellFormed(db.levels);
    NextLevelIsDisjoint(db.levels, level + 1);
    assert f in job.in0 && f in db.levels[level];
    MoveOutputIsOlder(db, level, f, hull);
    MoveOutputOk(db, level, f);
    GoodOutputs(db.levels, db.nextFile, job);
    MoveMovesAll(db, level, f);
    SelectedOutputsFit(db.levels, job, hull);
    assert DropsOk(db, job);
  }
}
