// From the bytes of a cut-off log back to the database: what RecoverLogFile reads is a way
// of replaying the writes that survive a crash.
module CrashRecovery {
  import opened DbFormat
  import opened Coding
  import opened Batches = WriteBatch
  import opened LogFormat
  import opened LogReplay
  import opened Recovery
  import opened LsmState
  import opened LsmSteps
  import opened LsmCrash

  // How the bytes of keys and values are represented in the tree.
  datatype Reading = Reading(place: Bytes -> UserKey, text: Bytes -> Value, tableSize: seq<Entry> -> nat)

  function EntryOf(r: Reading, i: Insertion): Entry {
    var sequence: SequenceNumber := if i.sequence <= MAX_SEQUENCE then i.sequence else MAX_SEQUENCE;
    Entry(InternalKey(r.place(i.key), sequence, i.kind), if i.kind.Put? then r.text(i.value) else "")
  }

  function EntriesOf(r: Reading, all: seq<Insertion>): (es: seq<Entry>)
    ensures |es| == |all|
  {
    seq(|all|, i requires 0 <= i < |all| => EntryOf(r, all[i]))
  }

  // What an operation on bytes does to the tree.
  function TreeOp(r: Reading, op: Batches.Op): LsmSteps.Op {
    match op
    case Put(key, value) => LsmSteps.PutOp(r.place(key), r.text(value))
    case Delete(key) => LsmSteps.DeleteOp(r.place(key))
  }

  function TreeOps(r: Reading, ops: seq<Batches.Op>): (t: seq<LsmSteps.Op>)
    ensures |t| == |ops| && forall i :: 0 <= i < |ops| ==> t[i] == TreeOp(r, ops[i])
  {
    seq(|ops|, i requires 0 <= i < |ops| => TreeOp(r, ops[i]))
  }

  // What a logged group inserts, live and on replay, is what DBImpl::Write appends to the
  // history for the same operations.
  lemma LoggedIsWritten(r: Reading, first: nat, ops: seq<Batches.Op>)
    requires first + |ops| <= MAX_SEQUENCE + 1
    ensures EntriesOf(r, Insertions(first, ops)) == EntriesFor(TreeOps(r, ops), first)
  {
    InsertionsAt(first, ops);
    var a, b := EntriesOf(r, Insertions(first, ops)), EntriesFor(TreeOps(r, ops), first);
    forall i | 0 <= i < |ops| ensures a[i] == b[i] {
      assert a[i] == EntryOf(r, Insertions(first, ops)[i]) && b[i] == EntryFor(TreeOps(r, ops)[i], first + i);
    }
  }

  // The same for all groups of a log.
  lemma {:induction false} LogIsWritten(r: Reading, start: nat, groups: seq<Group>)
    requires Consecutive(start, groups) && start + |OpsOf(groups)| <= MAX_SEQUENCE
    ensures EntriesOf(r, Inserted(groups)) == EntriesFor(TreeOps(r, OpsOf(groups)), start + 1)
    decreases |groups|
  {
    hide Writable;
    OpsCountInserted(groups);
    if groups != [] {
      var ops, rest := groups[0].ops, groups[1..];
      OpsCountInserted(rest);
      LoggedIsWritten(r, start + 1, ops);
      LogIsWritten(r, start + |ops|, rest);
      assert EntriesOf(r, Inserted(groups)) == EntriesOf(r, Insertions(start + 1, ops)) + EntriesOf(r, Inserted(rest));
      assert TreeOps(r, OpsOf(groups)) == TreeOps(r, ops) + TreeOps(r, OpsOf(rest));
    }
  }

  function OpsOf(groups: seq<Group>): seq<Batches.Op> {
    if groups == [] then [] else groups[0].ops + OpsOf(groups[1..])
  }

  lemma {:induction false} OpsCountInserted(groups: seq<Group>)
    ensures |OpsOf(groups)| == |Inserted(groups)|
  {
    if groups != [] { OpsCountInserted(groups[1..]); }
  }

  // The tables that recovery writes to level 0.
  function TablesOf(r: Reading, tables: seq<seq<Insertion>>): (replayed: seq<Replayed>)
    ensures |replayed| == |tables|
  {
    seq(|tables|, i requires 0 <= i < |tables| => Replayed(EntriesOf(r, tables[i]), r.tableSize(EntriesOf(r, tables[i]))))
  }

  lemma {:induction false} WritesOfTables(r: Reading, tables: seq<seq<Insertion>>)
    ensures WritesOf(TablesOf(r, tables)) == EntriesOf(r, Flatten(tables))
  {
    if tables != [] {
      var n := |tables| - 1;
      WritesOfTables(r, tables[..n]);
      assert TablesOf(r, tables)[..n] == TablesOf(r, tables[..n]);
      assert EntriesOf(r, Flatten(tables[..n]) + tables[n]) == EntriesOf(r, Flatten(tables[..n])) + EntriesOf(r, tables[n]);
    }
  }

  lemma {:induction false} InsertedPrefix(groups: seq<Group>, k: nat)
    requires k <= |groups|
    ensures Inserted(groups[..k]) <= Inserted(groups)
  {
    hide Insertions;
    if k > 0 {
      InsertedPrefix(groups[1..], k - 1);
      assert groups[..k][1..] == groups[1..][..k - 1] && groups[..k][0] == groups[0];
    }
  }

  lemma {:induction false} LastCountsInserted(start: nat, groups: seq<Group>)
    ensures LastAfter(start, groups) == start + |Inserted(groups)|
    decreases |groups|
  {
    if groups != [] { LastCountsInserted(start + |groups[0].ops|, groups[1..]); }
  }

  lemma NothingInserted(groups: seq<Group>)
    ensures Inserted(groups[..0]) == []
  {
  }

  // The crash, as recovery resolves it: the last sequence number is the larger one of
  // what the manifest and the log know.
  function Resolved(r: Reading, t: Recovered, manifestLast: SequenceNumber, nextFile: nat, unused: UserKey): Crash
    requires t.maxSequence <= MAX_SEQUENCE
  {
    Crash(TablesOf(r, t.tables), Larger(manifestLast, t.maxSequence), nextFile, unused)
  }

  // The log holds what has been written since the last flush.
  ghost predicate Logged(w: World, r: Reading, groups: seq<Group>) {
    && w.flushed <= |w.h| && w.h == w.h[..w.flushed] + EntriesOf(r, Inserted(groups))
    && Consecutive(w.flushed, groups) && LastAfter(w.flushed, groups) <= MAX_SEQUENCE
  }

  lemma RecoveredTables(w: World, r: Reading, crc: Checksum, paranoid: bool, full: seq<Insertion> -> bool, groups: seq<Group>, n: nat)
    returns (t: Recovered, k: nat)
    requires Logged(w, r, groups) && n <= |LogOf(crc, RepsOf(groups))|
    ensures t == RecoverFrom(crc, paranoid, full, LogOf(crc, RepsOf(groups))[..n], 0, Recovered([], None, 0, None))
    ensures t.error.None? && k == Whole(crc, RepsOf(groups), n)
    ensures WritesOf(TablesOf(r, t.tables)) == EntriesOf(r, Inserted(groups[..k]))
    ensures t.maxSequence == if k == 0 then 0 else w.flushed + |Inserted(groups[..k])|
    ensures k == 0 ==> Inserted(groups[..k]) == []
    ensures Inserted(groups[..k]) <= Inserted(groups) && w.flushed + |Inserted(groups)| <= MAX_SEQUENCE
  {
    hide LogOf, RecoverFrom, Consecutive, Inserted, EntriesOf, WritesOf, Whole, LastAfter;
    t := RecoverFrom(crc, paranoid, full, LogOf(crc, RepsOf(groups))[..n], 0, Recovered([], None, 0, None));
    k := Whole(crc, RepsOf(groups), n);
    PrefixIsRecovered(crc, paranoid, full, 0, w.flushed, groups, n);
    WritesOfTables(r, t.tables);
    InsertedPrefix(groups, k);
    NothingInserted(groups);
    LastCountsInserted(w.flushed, groups[..k]);
    LastCountsInserted(w.flushed, groups);
  }

  // Recovery gives a database for exactly these writes, and it satisfies the invariant.
  ghost predicate Rebuilds(w: World, c: Crash, survivors: seq<Entry>) {
    && survivors <= w.h && |w.h| <= MAX_SEQUENCE && CrashOk(w, c)
    && WorldInv(Reopen(w, c)) && MapAfter(Reopen(w, c).h) == MapAfter(survivors)
  }

  // After any run, and a crash that cuts off the log at any byte, what recovery reads is a
  // prefix of the history, and the database that it builds satisfies the invariant again.
  lemma CrashAtAnyByteIsRecovered(w: World, r: Reading, crc: Checksum, paranoid: bool, full: seq<Insertion> -> bool,
                                  groups: seq<Group>, n: nat, manifestLast: SequenceNumber, nextFile: nat, unused: UserKey)
    returns (t: Recovered, k: nat)
    requires WorldInv(w) && Logged(w, r, groups) && n <= |LogOf(crc, RepsOf(groups))|
    requires w.flushed <= manifestLast
    requires forall l, f :: 0 <= l < |w.db.levels| && f in w.db.levels[l] ==> f.number < nextFile
    requires forall i :: 0 <= i < |w.h| ==> w.h[i].key.user != unused
    ensures t == RecoverFrom(crc, paranoid, full, LogOf(crc, RepsOf(groups))[..n], 0, Recovered([], None, 0, None))
    ensures t.error.None? && k == Whole(crc, RepsOf(groups), n) && t.maxSequence <= MAX_SEQUENCE
    ensures Rebuilds(w, Resolved(r, t, manifestLast, nextFile, unused), w.h[..w.flushed] + EntriesOf(r, Inserted(groups[..k])))
    ensures Resolved(r, t, manifestLast, nextFile, unused).last == if t.maxSequence > manifestLast then t.maxSequence else manifestLast
    ensures MapAfter(w.h[..w.flushed] + EntriesOf(r, Inserted(groups[..k])))
         == ApplyAll(MapAfter(w.h[..w.flushed]), TreeOps(r, OpsOf(groups[..k])))
  {
    hide LogOf, ApplyAll, TreeOps, OpsOf, EntriesFor, LastAfter, RecoverFrom, Consecutive, Inserted, EntriesOf, TablesOf, WritesOf, WorldInv, MapAfter, Reopen, Whole, CrashOk, Survives, RepsOf;
    t, k := RecoveredTables(w, r, crc, paranoid, full, groups, n);
    EntriesPrefix(r, Inserted(groups[..k]), Inserted(groups));
    var c := Resolved(r, t, manifestLast, nextFile, unused);
    SurvivorsArePrefix(w, c, EntriesOf(r, Inserted(groups[..k])), EntriesOf(r, Inserted(groups)));
    CrashKeepsWorld(w, c);
    RecoveredApplies(r, w.h[..w.flushed], w.flushed, groups, k);
  }

  // The map after recovery: the operations of the wholly logged groups, one after another.
  lemma RecoveredApplies(r: Reading, h: seq<Entry>, start: nat, groups: seq<Group>, k: nat)
    requires Consecutive(start, groups) && LastAfter(start, groups) <= MAX_SEQUENCE && k <= |groups|
    ensures MapAfter(h + EntriesOf(r, Inserted(groups[..k]))) == ApplyAll(MapAfter(h), TreeOps(r, OpsOf(groups[..k])))
  {
    hide Consecutive, LastAfter, Inserted, EntriesOf, EntriesFor, MapAfter, ApplyAll, OpsOf;
    PrefixIsConsecutive(start, groups, k);
    InsertedPrefix(groups, k);
    LastCountsInserted(start, groups);
    LastCountsInserted(start, groups[..k]);
    OpsCountInserted(groups[..k]);
    LogIsWritten(r, start, groups[..k]);
    WritingApplies(h, TreeOps(r, OpsOf(groups[..k])), start + 1);
  }

  lemma SurvivorsArePrefix(w: World, c: Crash, some: seq<Entry>, all: seq<Entry>)
    requires w.flushed <= |w.h| && w.h == w.h[..w.flushed] + all && some <= all
    requires WritesOf(c.tables) == some && w.flushed + |some| <= c.last
    requires forall l, f :: 0 <= l < |w.db.levels| && f in w.db.levels[l] ==> f.number < c.nextFile
    requires forall i :: 0 <= i < |w.h| ==> w.h[i].key.user != c.unused
    ensures CrashOk(w, c) && Survives(w, c) == w.h[..w.flushed] + some && Survives(w, c) <= w.h
  {
    hide WritesOf;
    assert all[..|some|] == some;
    assert w.h[..w.flushed + |some|] == w.h[..w.flushed] + some;
  }

  lemma EntriesPrefix(r: Reading, some: seq<Insertion>, all: seq<Insertion>)
    requires some <= all
    ensures EntriesOf(r, some) <= EntriesOf(r, all)
  {
    assert forall i :: 0 <= i < |some| ==> some[i] == all[i];
  }
}
