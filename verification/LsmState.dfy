// The storage engine as a state machine: memtable, immutable memtable, seven levels of
// files, snapshots, and at most one compaction in progress.
module LsmState {
  import opened DbFormat
  import opened Tables
  import opened VersionSearch

  // A compaction between the choice of its inputs and the installation of its outputs.
  datatype Job = Job(level: nat, in0: seq<File>, in1: seq<File>, outputs: seq<File>, smallestSnapshot: SequenceNumber)

  datatype Db = Db(lastSequence: SequenceNumber,
                   mem: seq<Entry>, imm: Option<seq<Entry>>,
                   levels: Levels, nextFile: nat,
                   snapshots: seq<SequenceNumber>, job: Option<Job>)
  {
    function Imm(): seq<Entry> {
      if imm.Some? then imm.value else []
    }

    // The smallest sequence number that a present or future reader can use.
    function OldestReadPoint(): SequenceNumber {
      if snapshots == [] then lastSequence else snapshots[0]
    }
  }

  ghost predicate Holds(db: Db, e: Entry) {
    e in db.mem || e in db.Imm() || InFiles(db.levels, e)
  }

  // ---------- The invariant ----------

  ghost predicate NumbersOk(levels: Levels, nextFile: nat) {
    && (forall l, f :: 0 <= l < NUM_LEVELS && f in levels[l] ==> f.number < nextFile)
    && (forall l, m, f, g :: 0 <= l < NUM_LEVELS && 0 <= m < NUM_LEVELS && f in levels[l] && g in levels[m] && f.number == g.number
          ==> l == m && f == g)
  }

  ghost predicate NewerThanFiles(es: seq<Entry>, levels: Levels) {
    forall l, f :: 0 <= l < NUM_LEVELS && f in levels[l] ==> Newer(es, f.entries)
  }

  ghost predicate MemtablesOk(mem: seq<Entry>, imm: seq<Entry>, levels: Levels) {
    && Sorted(mem) && Sorted(imm) && Newer(mem, imm)
    && NewerThanFiles(mem, levels) && NewerThanFiles(imm, levels)
  }

  // The i-th write ever made has sequence number i + 1.
  predicate Numbered(h: seq<Entry>) {
    forall i :: 0 <= i < |h| ==> h[i].key.sequence == i + 1
  }

  predicate Wrote(h: seq<Entry>, e: Entry) {
    1 <= e.key.sequence <= |h| && h[e.key.sequence - 1] == e
  }

  ghost predicate FromHistory(db: Db, h: seq<Entry>) {
    Numbered(h) && |h| == db.lastSequence && forall e :: Holds(db, e) ==> Wrote(h, e)
  }

  // Some reader at or above the read point still sees the write.
  ghost predicate Needed(h: seq<Entry>, readPoint: nat, e: Entry) {
    Wrote(h, e) && forall o :: Wrote(h, o) && o.key.user == e.key.user && o.key.sequence > e.key.sequence ==> o.key.sequence > readPoint
  }

  // The write is held, or it is a deletion that every reader sees and that no older
  // entry is left to be hidden by.
  ghost predicate Represented(db: Db, e: Entry) {
    || Holds(db, e)
    || (&& e.key.kind.Deletion? && e.key.sequence <= db.OldestReadPoint()
        && forall o :: Holds(db, o) && o.key.user == e.key.user ==> o.key.sequence > e.key.sequence)
  }

  ghost predicate Retained(db: Db, h: seq<Entry>) {
    forall e :: Needed(h, db.OldestReadPoint(), e) ==> Represented(db, e)
  }

  // Snapshots are listed oldest first.
  predicate SnapshotsOk(snapshots: seq<SequenceNumber>, lastSequence: SequenceNumber) {
    && (forall i, j :: 0 <= i < j < |snapshots| ==> snapshots[i] <= snapshots[j])
    && (forall i :: 0 <= i < |snapshots| ==> snapshots[i] <= lastSequence)
  }

  // ---------- A compaction in progress ----------

  predicate IsInput(job: Job, f: File) {
    f in job.in0 || f in job.in1
  }

  ghost predicate InInputs(job: Job, e: Entry) {
    exists f :: IsInput(job, f) && e in f.entries
  }

  ghost predicate InOutputs(job: Job, e: Entry) {
    exists f :: f in job.outputs && e in f.entries
  }

  // The files of the level or of the next level that the compaction leaves alone.
  ghost predicate Bystander(levels: Levels, job: Job, f: File)
    requires job.level + 1 < NUM_LEVELS
  {
    || (f in levels[job.level] && f.number !in Numbers(job.in0))
    || (f in levels[job.level + 1] && f.number !in Numbers(job.in1))
  }

  ghost predicate InputsOk(levels: Levels, job: Job) {
    && job.level + 1 < NUM_LEVELS
    && (forall f :: f in job.in0 ==> f in levels[job.level])
    && (forall f :: f in job.in1 ==> f in levels[job.level + 1])
  }

  ghost predicate OutputsOk(levels: Levels, nextFile: nat, job: Job)
    requires job.level + 1 < NUM_LEVELS
  {
    && (forall o :: o in job.outputs ==> WellFormed(o) && o.number < nextFile)
    && Disjoint(job.outputs)
    && (forall o, p :: o in job.outputs && p in job.outputs && o.number == p.number ==> o == p)
    && (forall l, f, o :: 0 <= l < NUM_LEVELS && f in levels[l] && o in job.outputs && f.number == o.number
          ==> f == o && l == job.level && f in job.in0)
    && (forall e :: InOutputs(job, e) ==> InInputs(job, e))
  }

  // Every file that stays in the output level lies before or after every output.
  ghost predicate OutputsFit(levels: Levels, job: Job)
    requires job.level + 1 < NUM_LEVELS
  {
    forall f, o :: f in levels[job.level + 1] && f.number !in Numbers(job.in1) && o in job.outputs ==> Before(f, o) || Before(o, f)
  }

  // What stays at the compaction's own level is newer than what moves below it.
  ghost predicate OutputsAreOlder(levels: Levels, job: Job)
    requires job.level + 1 < NUM_LEVELS
  {
    forall f, o :: f in levels[job.level] && f.number !in Numbers(job.in0) && o in job.outputs ==> Newer(f.entries, o.entries)
  }

  // Every reader at or above the read point that could see the entry sees a newer one.
  ghost predicate Overwritten(db: Db, readPoint: nat, e: Entry) {
    exists o :: Holds(db, o) && o.key.user == e.key.user && e.key.sequence < o.key.sequence <= readPoint
  }

  // A deletion that every reader sees, where nothing older is left to be hidden by it.
  ghost predicate DroppedAsObsolete(levels: Levels, job: Job, e: Entry)
    requires job.level + 1 < NUM_LEVELS
  {
    && e.key.kind.Deletion? && e.key.sequence <= job.smallestSnapshot
    && (forall o :: InOutputs(job, o) && o.key.user == e.key.user ==> o.key.sequence > e.key.sequence)
    && (forall f, o :: Bystander(levels, job, f) && o in f.entries && o.key.user == e.key.user ==> o.key.sequence > e.key.sequence)
    && (forall l, f, o :: job.level + 2 <= l < NUM_LEVELS && f in levels[l] && o in f.entries ==> o.key.user != e.key.user)
  }

  // Why the outputs may lack an input entry.
  ghost predicate DropsOk(db: Db, job: Job)
    requires job.level + 1 < NUM_LEVELS
  {
    forall e :: InInputs(job, e) && !InOutputs(job, e) ==>
      Overwritten(db, job.smallestSnapshot, e) || DroppedAsObsolete(db.levels, job, e)
  }

  ghost predicate JobFits(levels: Levels, nextFile: nat, job: Job) {
    var inputsOk := InputsOk(levels, job);
    var outputsOk := inputsOk && OutputsOk(levels, nextFile, job) && OutputsFit(levels, job);
    outputsOk && OutputsAreOlder(levels, job)
  }

  ghost predicate JobOk(db: Db, job: Job) {
    var readersOk := job.smallestSnapshot <= db.OldestReadPoint();
    var fits := JobFits(db.levels, db.nextFile, job);
    readersOk && fits && DropsOk(db, job)
  }

  ghost predicate Inv(db: Db, h: seq<Entry>) {
    var filesOk := Layered(db.levels) && NumbersOk(db.levels, db.nextFile);
    var memtablesOk := MemtablesOk(db.mem, db.Imm(), db.levels);
    var readsOk := FromHistory(db, h) && Retained(db, h) && SnapshotsOk(db.snapshots, db.lastSequence);
    var jobOk := db.job.Some? ==> JobOk(db, db.job.value);
    filesOk && memtablesOk && readsOk && jobOk
  }

  // ---------- What readers see ----------

  // The database as a plain map, updated in write order.
  function MapAfter(h: seq<Entry>): map<UserKey, Value> {
    if h == [] then map[]
    else
      var last := h[|h| - 1];
      var before := MapAfter(h[..|h| - 1]);
      if last.key.kind.Put? then before[last.key.user := last.value]
      else map k | k in before && k != last.key.user :: before[k]
  }

  // r is what the newest held entry at or below the sequence number says.
  ghost predicate Answer(db: Db, user: UserKey, sequence: SequenceNumber, r: Lookup) {
    if r.Absent? then forall o :: Holds(db, o) && o.key.user == user ==> o.key.sequence > sequence
    else exists e :: NewestHeld(db, user, sequence, e) && r == Outcome(e)
  }

  ghost predicate NewestHeld(db: Db, user: UserKey, sequence: SequenceNumber, e: Entry) {
    && Holds(db, e) && e.key.user == user && e.key.sequence <= sequence
    && forall o :: Holds(db, o) && o.key.user == user && o.key.sequence <= sequence ==> o.key.sequence <= e.key.sequence
  }

  predicate Agrees(m: map<UserKey, Value>, user: UserKey, r: Lookup) {
    if r.Found? then user in m && m[user] == r.value else user !in m
  }

  // The last write to the key decides what the map holds for it.
  lemma {:induction false} MapAfterIsLastWrite(h: seq<Entry>, user: UserKey, n: nat)
    requires n <= |h|
    requires forall i :: n <= i < |h| ==> h[i].key.user != user
    requires n > 0 ==> h[n - 1].key.user == user
    ensures Agrees(MapAfter(h), user, if n == 0 then Absent else Outcome(h[n - 1]))
  {
    if |h| > n {
      MapAfterIsLastWrite(h[..|h| - 1], user, n);
    }
  }

  // How many writes it takes to include the last one for the key.
  function LastWrite(h: seq<Entry>, user: UserKey): (n: nat)
    ensures n <= |h|
    ensures forall i :: n <= i < |h| ==> h[i].key.user != user
    ensures n > 0 ==> h[n - 1].key.user == user
  {
    if h == [] then 0
    else if h[|h| - 1].key.user == user then |h|
    else LastWrite(h[..|h| - 1], user)
  }

  // In every state that satisfies the invariant, and at every sequence number a reader
  // can use, the newest held entry says what the plain map holds.
  lemma ReadsAreRight(db: Db, h: seq<Entry>, user: UserKey, sequence: SequenceNumber, r: Lookup)
    requires FromHistory(db, h) && Retained(db, h)
    requires db.OldestReadPoint() <= sequence <= db.lastSequence
    requires Answer(db, user, sequence, r)
    ensures Agrees(MapAfter(h[..sequence]), user, r)
  {
    var seen := h[..sequence];
    var n := LastWrite(seen, user);
    MapAfterIsLastWrite(seen, user, n);
    if n > 0 {
      var e := h[n - 1];
      LastWriteIsNeeded(h, user, sequence, n, db.OldestReadPoint());
      LastWriteAnswers(db, h, user, sequence, r, e);
    } else {
      assert forall e :: Wrote(h, e) && e.key.sequence <= sequence ==> seen[e.key.sequence - 1] == e;
    }
  }

  lemma LastWriteIsNeeded(h: seq<Entry>, user: UserKey, sequence: SequenceNumber, n: nat, readPoint: nat)
    requires Numbered(h) && 0 < n <= sequence <= |h| && readPoint <= sequence
    requires h[n - 1].key.user == user
    requires forall i :: n <= i < sequence ==> h[..sequence][i].key.user != user
    ensures Needed(h, readPoint, h[n - 1])
  {
    assert forall o :: Wrote(h, o) && o.key.sequence <= sequence ==> h[..sequence][o.key.sequence - 1] == o;
  }

  lemma LastWriteAnswers(db: Db, h: seq<Entry>, user: UserKey, sequence: SequenceNumber, r: Lookup, e: Entry)
    requires FromHistory(db, h) && sequence <= |h|
    requires Wrote(h, e) && e.key.user == user && e.key.sequence <= sequence
    requires forall i :: e.key.sequence <= i < sequence ==> h[i].key.user != user
    requires Represented(db, e)
    requires Answer(db, user, sequence, r)
    ensures r == Outcome(e) || (r.Absent? && e.key.kind.Deletion?)
  {
    if !r.Absent? {
      var found :| NewestHeld(db, user, sequence, found) && r == Outcome(found);
      assert Wrote(h, found);
    }
  }
}
