// Writes, memtable switches and snapshots keep the invariant.
module LsmSteps {
  import opened DbFormat
  import opened Tables
  import opened VersionSearch
  import opened LsmState

  datatype Op = PutOp(user: UserKey, value: Value) | DeleteOp(user: UserKey)

  function EntryFor(op: Op, sequence: SequenceNumber): Entry {
    match op
    case PutOp(user, value) => Entry(InternalKey(user, sequence, Put), value)
    case DeleteOp(user) => Entry(InternalKey(user, sequence, Deletion), "")
  }

  function EntriesFor(ops: seq<Op>, first: nat): (es: seq<Entry>)
    requires first + |ops| <= MAX_SEQUENCE + 1
  {
    seq(|ops|, i requires 0 <= i < |ops| => EntryFor(ops[i], first + i))
  }

  lemma EntriesForAppend(ops: seq<Op>, first: nat, i: nat)
    requires i < |ops| && first + |ops| <= MAX_SEQUENCE + 1
    ensures EntriesFor(ops[..i + 1], first) == EntriesFor(ops[..i], first) + [EntryFor(ops[i], first + i)]
  {
  }

  // ---------- What operations mean ----------

  // What an operation does to a plain map.
  function Apply(m: map<UserKey, Value>, op: Op): map<UserKey, Value> {
    match op
    case PutOp(user, value) => m[user := value]
    case DeleteOp(user) => m - {user}
  }

  function ApplyAll(m: map<UserKey, Value>, ops: seq<Op>): map<UserKey, Value> {
    if ops == [] then m else Apply(ApplyAll(m, ops[..|ops| - 1]), ops[|ops| - 1])
  }

  // Writing operations to the history does to its map what they mean.
  lemma {:induction false} WritingApplies(h: seq<Entry>, ops: seq<Op>, first: nat)
    requires first + |ops| <= MAX_SEQUENCE + 1
    ensures MapAfter(h + EntriesFor(ops, first)) == ApplyAll(MapAfter(h), ops)
  {
    if ops == [] {
      assert h + EntriesFor(ops, first) == h;
    } else {
      var n := |ops| - 1;
      WritingApplies(h, ops[..n], first);
      var all := h + EntriesFor(ops, first);
      assert all[..|all| - 1] == h + EntriesFor(ops[..n], first);
      WritingOneApplies(all, ops[n], first + n);
    }
  }

  lemma WritingOneApplies(h: seq<Entry>, op: Op, sequence: SequenceNumber)
    requires h != [] && h[|h| - 1] == EntryFor(op, sequence)
    ensures MapAfter(h) == Apply(MapAfter(h[..|h| - 1]), op)
  {
  }

  // One operation of a batch: MemTable::Add under the next sequence number.
  function WriteOne(db: Db, e: Entry): Db
    requires db.lastSequence < MAX_SEQUENCE
  {
    db.(lastSequence := db.lastSequence + 1, mem := Insert(db.mem, e))
  }

  // MakeRoomForWrite: the full memtable becomes the immutable one.
  function SwitchMemTable(db: Db): Db
    requires db.imm.None?
  {
    db.(mem := [], imm := Some(db.mem))
  }

  function TakeSnapshot(db: Db): Db {
    db.(snapshots := db.snapshots + [db.lastSequence])
  }

  function ReleaseSnapshot(db: Db, i: nat): Db
    requires i < |db.snapshots|
  {
    db.(snapshots := db.snapshots[..i] + db.snapshots[i + 1..])
  }

  // A compaction in progress does not mind more entries in memory or fewer snapshots.
  lemma MoreHeldKeepsJob(db: Db, after: Db, job: Job)
    requires JobOk(db, job) && after.levels == db.levels && after.nextFile == db.nextFile
    requires db.OldestReadPoint() <= after.OldestReadPoint()
    requires forall o :: Holds(db, o) ==> Holds(after, o)
    ensures JobOk(after, job)
  {
    assert forall e :: Overwritten(db, job.smallestSnapshot, e) ==> Overwritten(after, job.smallestSnapshot, e);
  }

  // A higher read point needs no more than a lower one.
  lemma NeededShrinks(h: seq<Entry>, e: Entry, w: seq<Entry>, low: nat, high: nat)
    requires Needed(h + w, high, e) && low <= high && e.key.sequence <= |h|
    ensures Needed(h, low, e)
  {
    assert forall o :: Wrote(h, o) ==> Wrote(h + w, o);
    assert Wrote(h, e) by { assert (h + w)[e.key.sequence - 1] == h[e.key.sequence - 1]; }
  }

  lemma WriteOneHolds(db: Db, e: Entry)
    requires db.lastSequence < MAX_SEQUENCE
    requires Sorted(db.mem) && forall o :: o in db.mem ==> o.key != e.key
    ensures forall o :: Holds(WriteOne(db, e), o) <==> Holds(db, o) || o == e
    ensures Sorted(WriteOne(db, e).mem)
  {
    InsertKeepsSorted(db.mem, e);
  }

  lemma WriteOneKeepsHistory(db: Db, h: seq<Entry>, e: Entry)
    requires FromHistory(db, h) && db.lastSequence < MAX_SEQUENCE && e.key.sequence == db.lastSequence + 1
    requires Sorted(db.mem)
    ensures FromHistory(WriteOne(db, e), h + [e])
    ensures forall o :: Holds(WriteOne(db, e), o) <==> Holds(db, o) || o == e
    ensures forall o :: Holds(db, o) ==> o.key.sequence < e.key.sequence
    ensures Sorted(WriteOne(db, e).mem)
  {
    assert forall o :: Holds(db, o) ==> Wrote(h, o);
    assert forall o :: o in db.mem ==> Holds(db, o);
    WriteOneHolds(db, e);
    assert forall o :: Wrote(h, o) ==> Wrote(h + [e], o);
  }

  lemma WriteOneKeepsMemtables(db: Db, e: Entry)
    requires MemtablesOk(db.mem, db.Imm(), db.levels)
    requires db.lastSequence < MAX_SEQUENCE
    requires forall o :: Holds(db, o) ==> o.key.sequence < e.key.sequence
    requires Sorted(WriteOne(db, e).mem)
    requires forall o :: o in WriteOne(db, e).mem ==> o in db.mem || o == e
    ensures MemtablesOk(WriteOne(db, e).mem, db.Imm(), db.levels)
  {
    var mem := WriteOne(db, e).mem;
    forall l, f | 0 <= l < NUM_LEVELS && f in db.levels[l] ensures Newer(mem, f.entries) {
      assert forall o :: o in f.entries ==> Holds(db, o);
    }
    assert forall o :: o in db.Imm() ==> Holds(db, o);
  }

  lemma WriteOneKeepsRetained(db: Db, h: seq<Entry>, e: Entry)
    requires FromHistory(db, h) && Retained(db, h) && SnapshotsOk(db.snapshots, db.lastSequence)
    requires db.lastSequence < MAX_SEQUENCE && e.key.sequence == db.lastSequence + 1
    requires forall o :: Holds(WriteOne(db, e), o) <==> Holds(db, o) || o == e
    ensures Retained(WriteOne(db, e), h + [e])
  {
    var after := WriteOne(db, e);
    forall o | Needed(h + [e], after.OldestReadPoint(), o) ensures Represented(after, o) {
      if o.key.sequence <= |h| {
        NeededShrinks(h, o, [e], db.OldestReadPoint(), after.OldestReadPoint());
        assert Represented(db, o);
      }
    }
  }

  lemma WriteOneKeepsInv(db: Db, h: seq<Entry>, e: Entry)
    requires Inv(db, h)
    requires db.lastSequence < MAX_SEQUENCE && e.key.sequence == db.lastSequence + 1
    ensures Inv(WriteOne(db, e), h + [e])
  {
    var after := WriteOne(db, e);
    WriteOneKeepsHistory(db, h, e);
    assert forall o :: o in after.mem ==> o in db.mem || o == e by { InsertMembers(db.mem, e); }
    WriteOneKeepsMemtables(db, e);
    WriteOneKeepsRetained(db, h, e);
    if db.job.Some? { MoreHeldKeepsJob(db, after, db.job.value); }
  }

  lemma InsertMembers(es: seq<Entry>, e: Entry)
    ensures forall o :: o in Insert(es, e) <==> o in es || o == e
  {
    var i := SeekIndex(es, e.key);
    assert es == es[..i] + es[i..];
  }

  lemma SwitchKeepsInv(db: Db, h: seq<Entry>)
    requires Inv(db, h) && db.imm.None?
    ensures Inv(SwitchMemTable(db), h)
  {
    var after := SwitchMemTable(db);
    assert forall o :: Holds(after, o) <==> Holds(db, o);
    assert Retained(after, h) by {
      forall e | Needed(h, after.OldestReadPoint(), e) ensures Represented(after, e) {
        assert Represented(db, e);
      }
    }
    if db.job.Some? { MoreHeldKeepsJob(db, after, db.job.value); }
  }

  // Changing only the snapshots, without lowering the oldest read point.
  lemma ReadPointMayRise(db: Db, h: seq<Entry>, snapshots: seq<SequenceNumber>)
    requires Inv(db, h) && SnapshotsOk(snapshots, db.lastSequence)
    requires db.OldestReadPoint() <= db.(snapshots := snapshots).OldestReadPoint()
    ensures Inv(db.(snapshots := snapshots), h)
  {
    var after := db.(snapshots := snapshots);
    assert forall o :: Holds(after, o) <==> Holds(db, o);
    assert Retained(after, h) by {
      forall e | Needed(h, after.OldestReadPoint(), e) ensures Represented(after, e) {
        assert h + [] == h;
        NeededShrinks(h, e, [], db.OldestReadPoint(), after.OldestReadPoint());
        assert Represented(db, e);
      }
    }
    if db.job.Some? { MoreHeldKeepsJob(db, after, db.job.value); }
  }

  lemma TakeSnapshotKeepsInv(db: Db, h: seq<Entry>)
    requires Inv(db, h)
    ensures Inv(TakeSnapshot(db), h)
  {
    ReadPointMayRise(db, h, db.snapshots + [db.lastSequence]);
  }

  lemma ReleaseSnapshotKeepsInv(db: Db, h: seq<Entry>, i: nat)
    requires Inv(db, h) && i < |db.snapshots|
    ensures Inv(ReleaseSnapshot(db, i), h)
  {
    ReadPointMayRise(db, h, db.snapshots[..i] + db.snapshots[i + 1..]);
  }
}
