// Replaying the write-ahead log (DBImpl::RecoverLogFile in db/db_impl.cc).
module Recovery {
  import opened DbFormat
  import opened Coding
  import opened LogFormat
  import opened LogReader
  import opened LogReplay
  import opened WriteBatch

  // ---------- What recovery computes, as a function of the file ----------

  // The level-0 tables written so far, the memtable being filled, the largest sequence
  // number seen, and the first error.
  datatype Recovered = Recovered(tables: seq<seq<Insertion>>, mem: Option<seq<Insertion>>, maxSequence: nat, error: Option<string>)

  // The reporter: only a paranoid database takes note of corruption.
  function NoteReports(paranoid: bool, error: Option<string>, reports: seq<Report>): Option<string> {
    if paranoid && error.None? && reports != [] then Some(reports[0].reason) else error
  }

  function LastOfBatch(rep: Bytes): nat
    requires |rep| >= HEADER
  {
    (Sequence(rep) + Count(rep) - 1) % TWO_64
  }

  function Larger(a: nat, b: nat): nat {
    if a > b then a else b
  }

  // One record of the log.
  function Apply(paranoid: bool, full: seq<Insertion> -> bool, s: Recovered, record: Bytes): Recovered {
    if |record| < HEADER then
      s.(error := if paranoid && s.error.None? then Some("log record too small") else s.error)
    else
      var batch := IterateRep(record);
      var mem := (if s.mem.Some? then s.mem.value else []) + Insertions(Sequence(record), batch.ops);
      if paranoid && batch.error.Some? then s.(mem := Some(mem), error := batch.error)
      else
        var max := Larger(LastOfBatch(record), s.maxSequence);
        if full(mem) then s.(tables := s.tables + [mem], mem := None, maxSequence := max)
        else s.(mem := Some(mem), maxSequence := max)
  }

  // What is left in memory becomes the last table, unless there was an error.
  function Close(s: Recovered): Recovered {
    if s.error.None? && s.mem.Some? then s.(tables := s.tables + [s.mem.value], mem := None) else s.(mem := None)
  }

  function RecoverFrom(crc: Checksum, paranoid: bool, full: seq<Insertion> -> bool, file: Bytes, pos: nat, s: Recovered): Recovered
    requires pos <= |file|
    decreases |file| - pos
  {
    var r := ReadFrom(crc, true, file, pos, None);
    var noted := s.(error := NoteReports(paranoid, s.error, r.reports));
    if r.record.None? || noted.error.Some? then Close(noted)
    else RecoverFrom(crc, paranoid, full, file, r.next, Apply(paranoid, full, noted, r.record.value))
  }

  // ---------- The method ----------

  method RecoverLogFile(crc: Checksum, file: Bytes, paranoid: bool, full: seq<Insertion> -> bool, maxSequence: nat)
    returns (tables: seq<seq<Insertion>>, newMaxSequence: nat, status: Option<string>)
    ensures var r := RecoverFrom(crc, paranoid, full, file, 0, Recovered([], None, maxSequence, None));
            tables == r.tables && newMaxSequence == r.maxSequence && status == r.error
  {
    hide ReadFrom;
    ghost var all := RecoverFrom(crc, paranoid, full, file, 0, Recovered([], None, maxSequence, None));
    var reader := new Reader(file, crc, true);
    var mem: Option<seq<Insertion>> := None;
    tables, newMaxSequence, status := [], maxSequence, None;
    while true
      invariant fresh(reader) && reader.Ok() && reader.file == file && reader.crc == crc && reader.checksum
      invariant RecoverFrom(crc, paranoid, full, file, reader.Pos(), Recovered(tables, mem, newMaxSequence, status)) == all
      decreases |file| - reader.Pos()
    {
      var reported := |reader.reports|;
      var record := reader.ReadRecord();
      status := NoteReports(paranoid, status, reader.reports[reported..]);
      if record.None? || status.Some? {
        break;
      }
      tables, mem, newMaxSequence, status := AddRecord(paranoid, full, record.value, tables, mem, newMaxSequence, status);
    }
    if status.None? && mem.Some? {
      tables := tables + [mem.value];
    }
  }

  // The loop body once a record has been read.
  method AddRecord(paranoid: bool, full: seq<Insertion> -> bool, record: Bytes,
                   tables: seq<seq<Insertion>>, mem: Option<seq<Insertion>>, maxSequence: nat, status: Option<string>)
    returns (newTables: seq<seq<Insertion>>, newMem: Option<seq<Insertion>>, newMaxSequence: nat, newStatus: Option<string>)
    ensures Recovered(newTables, newMem, newMaxSequence, newStatus)
         == Apply(paranoid, full, Recovered(tables, mem, maxSequence, status), record)
  {
    newTables, newMem, newMaxSequence, newStatus := tables, mem, maxSequence, status;
    if |record| < HEADER {
      newStatus := if paranoid && status.None? then Some("log record too small") else status;
      return;
    }
    var entries, error := InsertInto(record, if mem.Some? then mem.value else []);
    newMem := Some(entries);
    if paranoid && error.Some? {
      newStatus := error;
      return;
    }
    var lastSequence := (Sequence(record) + Count(record) - 1) % TWO_64;
    if lastSequence > newMaxSequence {
      newMaxSequence := lastSequence;
    }
    if full(entries) {
      newTables, newMem := newTables + [entries], None;
    }
  }

  // ---------- Live writes and their replay ----------

  // A group of operations that was logged and applied under consecutive sequence numbers.
  datatype Group = Group(first: Word64, ops: seq<Op>)

  function RepOf(g: Group): Bytes {
    Rep(g.first, g.ops)
  }

  function RepsOf(groups: seq<Group>): (r: seq<Bytes>)
    ensures |r| == |groups| && forall i :: 0 <= i < |groups| ==> r[i] == RepOf(groups[i])
  {
    seq(|groups|, i requires 0 <= i < |groups| => RepOf(groups[i]))
  }

  // What the live writes of the groups inserted into memtables.
  function Inserted(groups: seq<Group>): seq<Insertion> {
    if groups == [] then [] else Insertions(groups[0].first, groups[0].ops) + Inserted(groups[1..])
  }

  // The last sequence number after all of the groups.
  function LastAfter(start: nat, groups: seq<Group>): nat
    decreases |groups|
  {
    if groups == [] then start else LastAfter(start + |groups[0].ops|, groups[1..])
  }

  predicate Writable(g: Group) {
    AllSmall(g.ops) && |g.ops| < TWO_32 / 2 && 1 <= g.first && g.first + |g.ops| <= TWO_64
  }

  // Each group begins where the one before ended.
  predicate Consecutive(start: nat, groups: seq<Group>)
    decreases |groups|
  {
    groups == [] || (Writable(groups[0]) && groups[0].first == start + 1 && Consecutive(start + |groups[0].ops|, groups[1..]))
  }

  lemma {:induction false} PrefixIsConsecutive(start: nat, groups: seq<Group>, k: nat)
    requires Consecutive(start, groups) && k <= |groups|
    ensures Consecutive(start, groups[..k])
    decreases |groups|
  {
    if k > 0 {
      PrefixIsConsecutive(start + |groups[0].ops|, groups[1..], k - 1);
      assert groups[..k][1..] == groups[1..][..k - 1];
    }
  }

  // Everything in the tables and the memtable, in the order of insertion.
  function Contents(s: Recovered): seq<Insertion> {
    Flatten(s.tables) + (if s.mem.Some? then s.mem.value else [])
  }

  function Flatten(tables: seq<seq<Insertion>>): seq<Insertion> {
    if tables == [] then [] else Flatten(tables[..|tables| - 1]) + tables[|tables| - 1]
  }

  lemma FlattenAppend(tables: seq<seq<Insertion>>, t: seq<Insertion>)
    ensures Flatten(tables + [t]) == Flatten(tables) + t
  {
    assert (tables + [t])[..|tables|] == tables;
  }

  lemma ContentsGrow(s: Recovered, more: seq<Insertion>)
    ensures var mem := (if s.mem.Some? then s.mem.value else []) + more;
            && Contents(s.(mem := Some(mem))) == Contents(s) + more
            && Contents(s.(tables := s.tables + [mem], mem := None)) == Contents(s) + more
  {
    hide Flatten;
    var mem := if s.mem.Some? then s.mem.value else [];
    FlattenAppend(s.tables, mem + more);
    assert Flatten(s.tables) + (mem + more) == (Flatten(s.tables) + mem) + more;
    assert Flatten(s.tables + [mem + more]) + [] == Flatten(s.tables + [mem + more]);
  }

  lemma SameContents(s: Recovered, t: Recovered)
    requires s.tables == t.tables && s.mem == t.mem
    ensures Contents(s) == Contents(t)
  {
  }

  // The group that was logged is the group that is inserted again.
  lemma ApplyGroup(paranoid: bool, full: seq<Insertion> -> bool, s: Recovered, g: Group)
    requires s.error.None? && Writable(g)
    ensures var t := Apply(paranoid, full, s, RepOf(g));
            && t.error.None? && Contents(t) == Contents(s) + Insertions(g.first, g.ops)
            && t.maxSequence == Larger(g.first + |g.ops| - 1, s.maxSequence)
  {
    hide Sequence, Count, Rep, Insertions, Contents, Fixed, DecodeFixed, IterateRep, AllSmall;
    IterateUndoesRep(g.first, g.ops);
    HeaderOfRep(g.first, g.ops);
    var more := Insertions(g.first, g.ops);
    var t := Apply(paranoid, full, s, RepOf(g));
    ContentsGrow(s, more);
    var mem := (if s.mem.Some? then s.mem.value else []) + more;
    SameContents(t, if full(mem) then s.(tables := s.tables + [mem], mem := None) else s.(mem := Some(mem)));
  }

  // A reader that returns the records of these groups and reports nothing makes recovery
  // insert exactly what the live writes inserted.
  lemma {:induction false} GroupsAreRecovered(crc: Checksum, paranoid: bool, full: seq<Insertion> -> bool, file: Bytes, pos: nat,
                                              s: Recovered, start: nat, groups: seq<Group>)
    requires pos <= |file| && s.error.None? && Consecutive(start, groups)
    requires ReadAll(crc, true, file, pos) == (RepsOf(groups), [])
    ensures var t := RecoverFrom(crc, paranoid, full, file, pos, s);
            && t.error.None? && t.mem.None? && Flatten(t.tables) == Contents(s) + Inserted(groups)
            && t.maxSequence == if groups == [] then s.maxSequence else Larger(LastAfter(start, groups), s.maxSequence)
    decreases |groups|
  {
    hide ReadFrom, Apply, RepOf, Insertions, Writable, Contents;
    var r := ReadFrom(crc, true, file, pos, None);
    assert r.reports == [];
    if groups == [] {
      assert RecoverFrom(crc, paranoid, full, file, pos, s) == Close(s);
      CloseKeepsContents(s);
    } else {
      var g, next := groups[0], Apply(paranoid, full, s, r.record.value);
      assert RepsOf(groups)[0] == RepOf(g) && RepsOf(groups)[1..] == RepsOf(groups[1..]);
      ApplyGroup(paranoid, full, s, g);
      assert RecoverFrom(crc, paranoid, full, file, pos, s) == RecoverFrom(crc, paranoid, full, file, r.next, next);
      GroupsAreRecovered(crc, paranoid, full, file, r.next, next, start + |g.ops|, groups[1..]);
      LastAfterGrows(start + |g.ops|, groups[1..]);
      assert Contents(s) + (Insertions(g.first, g.ops) + Inserted(groups[1..]))
          == (Contents(s) + Insertions(g.first, g.ops)) + Inserted(groups[1..]);
    }
  }

  lemma {:induction false} LastAfterGrows(start: nat, groups: seq<Group>)
    ensures LastAfter(start, groups) >= start
    decreases |groups|
  {
    if groups != [] { LastAfterGrows(start + |groups[0].ops|, groups[1..]); }
  }

  lemma CloseKeepsContents(s: Recovered)
    requires s.error.None?
    ensures Close(s).error.None? && Close(s).mem.None? && Flatten(Close(s).tables) == Contents(s) + []
  {
    if s.mem.Some? { FlattenAppend(s.tables, s.mem.value); }
  }

  // The theorem: whatever prefix of the log is left, recovery inserts what the live writes
  // of the completely logged groups inserted, in order, under the same sequence numbers.
  lemma PrefixIsRecovered(crc: Checksum, paranoid: bool, full: seq<Insertion> -> bool, maxSequence: nat, start: nat,
                          groups: seq<Group>, n: nat)
    requires Consecutive(start, groups) && maxSequence <= start && n <= |LogOf(crc, RepsOf(groups))|
    ensures var k := Whole(crc, RepsOf(groups), n);
            var t := RecoverFrom(crc, paranoid, full, LogOf(crc, RepsOf(groups))[..n], 0, Recovered([], None, maxSequence, None));
            && t.error.None? && Flatten(t.tables) == Inserted(groups[..k])
            && t.maxSequence == if k == 0 then maxSequence else LastAfter(start, groups[..k])
  {
    hide LogOf, RecoverFrom, ReadAll, Writable;
    var k := Whole(crc, RepsOf(groups), n);
    var s := Recovered([], None, maxSequence, None);
    PrefixIsReplayed(crc, true, RepsOf(groups), n);
    assert RepsOf(groups)[..k] == RepsOf(groups[..k]);
    PrefixIsConsecutive(start, groups, k);
    LastAfterGrows(start, groups[..k]);
    GroupsAreRecovered(crc, paranoid, full, LogOf(crc, RepsOf(groups))[..n], 0, s, start, groups[..k]);
    assert Contents(s) + Inserted(groups[..k]) == Inserted(groups[..k]);
  }

  // With the whole log there, everything comes back.
  lemma LogIsRecovered(crc: Checksum, paranoid: bool, full: seq<Insertion> -> bool, start: nat, groups: seq<Group>)
    requires Consecutive(start, groups)
    ensures var t := RecoverFrom(crc, paranoid, full, LogOf(crc, RepsOf(groups)), 0, Recovered([], None, start, None));
            t.error.None? && Flatten(t.tables) == Inserted(groups) && t.maxSequence == LastAfter(start, groups)
  {
    hide RecoverFrom, ReadAll, Consecutive;
    var log := LogOf(crc, RepsOf(groups));
    PrefixIsRecovered(crc, paranoid, full, start, start, groups, |log|);
    assert log[..|log|] == log && groups[..|groups|] == groups;
  }

  // ---------- Any log at all ----------

  predicate GoodBatch(record: Bytes) {
    |record| >= HEADER && IterateRep(record).error.None?
  }

  lemma AppliedError(paranoid: bool, full: seq<Insertion> -> bool, s: Recovered, record: Bytes)
    requires s.error.None?
    ensures Apply(paranoid, full, s, record).error.None? <==> !paranoid || GoodBatch(record)
  {
  }

  // After an error nothing more is written, not even what is in memory.
  lemma ErrorStays(crc: Checksum, paranoid: bool, full: seq<Insertion> -> bool, file: Bytes, pos: nat, s: Recovered)
    requires pos <= |file| && s.error.Some?
    ensures RecoverFrom(crc, paranoid, full, file, pos, s).error == s.error
    ensures RecoverFrom(crc, paranoid, full, file, pos, s).tables == s.tables
  {
    hide ReadFrom, Apply;
  }

  // Whatever the log holds: recovery fails exactly if the database is paranoid and
  // something was reported or some record is not a good batch.
  lemma {:induction false} RecoveryFailsIff(crc: Checksum, paranoid: bool, full: seq<Insertion> -> bool, file: Bytes, pos: nat, s: Recovered)
    requires pos <= |file| && s.error.None?
    ensures RecoverFrom(crc, paranoid, full, file, pos, s).error.Some?
       <==> paranoid && (ReadAll(crc, true, file, pos).1 != [] || exists record :: record in ReadAll(crc, true, file, pos).0 && !GoodBatch(record))
    decreases |file| - pos
  {
    hide ReadFrom, Apply, GoodBatch;
    var r := ReadFrom(crc, true, file, pos, None);
    if r.record.Some? && NoteReports(paranoid, None, r.reports).None? {
      var rest := ReadAll(crc, true, file, r.next).0;
      assert ReadAll(crc, true, file, pos).0 == [r.record.value] + rest;
      assert forall record :: record in [r.record.value] + rest <==> record == r.record.value || record in rest;
      var next := Apply(paranoid, full, s, r.record.value);
      AppliedError(paranoid, full, s, r.record.value);
      assert RecoverFrom(crc, paranoid, full, file, pos, s) == RecoverFrom(crc, paranoid, full, file, r.next, next);
      if next.error.None? {
        RecoveryFailsIff(crc, paranoid, full, file, r.next, next);
      } else {
        ErrorStays(crc, paranoid, full, file, r.next, next);
      }
    }
  }

  // What the records insert, each as far as it can be parsed.
  function AllInsertions(records: seq<Bytes>): seq<Insertion> {
    if records == [] then []
    else (if |records[0]| < HEADER then [] else Insertions(Sequence(records[0]), IterateRep(records[0]).ops)) + AllInsertions(records[1..])
  }

  // The last sequence number of a batch, if it is larger than the given one.
  function LastOr(max: nat, record: Bytes): nat {
    if |record| < HEADER || (Sequence(record) + Count(record) - 1) % TWO_64 <= max then max
    else (Sequence(record) + Count(record) - 1) % TWO_64
  }

  function LargestLast(max: nat, records: seq<Bytes>): nat
    decreases |records|
  {
    if records == [] then max else LargestLast(LastOr(max, records[0]), records[1..])
  }

  lemma AppliedContents(paranoid: bool, full: seq<Insertion> -> bool, s: Recovered, record: Bytes)
    requires s.error.None? && Apply(paranoid, full, s, record).error.None?
    ensures var t := Apply(paranoid, full, s, record);
            && Contents(t) == Contents(s) + (if |record| < HEADER then [] else Insertions(Sequence(record), IterateRep(record).ops))
            && t.maxSequence == LastOr(s.maxSequence, record)
  {
    hide Sequence, Count, Insertions, IterateRep, Contents;
    var t := Apply(paranoid, full, s, record);
    if |record| < HEADER {
      SameContents(t, s);
      assert Contents(s) + [] == Contents(s);
    } else {
      var more := Insertions(Sequence(record), IterateRep(record).ops);
      ContentsGrow(s, more);
      var mem := (if s.mem.Some? then s.mem.value else []) + more;
      SameContents(t, if full(mem) then s.(tables := s.tables + [mem], mem := None) else s.(mem := Some(mem)));
    }
  }

  // Without an error, recovery inserts everything that the readable records insert, in
  // order, wherever the memtables fill up, and finds the largest sequence number.
  lemma {:induction false} AnyLogIsRecovered(crc: Checksum, paranoid: bool, full: seq<Insertion> -> bool, file: Bytes, pos: nat, s: Recovered)
    requires pos <= |file| && s.error.None? && RecoverFrom(crc, paranoid, full, file, pos, s).error.None?
    ensures var t, records := RecoverFrom(crc, paranoid, full, file, pos, s), ReadAll(crc, true, file, pos).0;
            && t.mem.None? && Flatten(t.tables) == Contents(s) + AllInsertions(records)
            && t.maxSequence == LargestLast(s.maxSequence, records)
    decreases |file| - pos
  {
    hide ReadFrom, Apply, Contents, Insertions, LastOr, IterateRep, Flatten, NoteReports, Sequence;
    var r := ReadFrom(crc, true, file, pos, None);
    if r.record.None? {
      CloseKeepsContents(s);
    } else {
      var record, rest := r.record.value, ReadAll(crc, true, file, r.next).0;
      assert ReadAll(crc, true, file, pos).0[1..] == rest;
      var next := Apply(paranoid, full, s, record);
      assert RecoverFrom(crc, paranoid, full, file, pos, s) == RecoverFrom(crc, paranoid, full, file, r.next, next);
      if next.error.Some? { ErrorStays(crc, paranoid, full, file, r.next, next); }
      AppliedContents(paranoid, full, s, record);
      AnyLogIsRecovered(crc, paranoid, full, file, r.next, next);
      var here := if |record| < HEADER then [] else Insertions(Sequence(record), IterateRep(record).ops);
      assert (Contents(s) + here) + AllInsertions(rest) == Contents(s) + (here + AllInsertions(rest));
    }
  }
}
