// The log reader (db/log_reader.cc), for an initial offset of zero.
module LogReader {
  import opened DbFormat
  import opened Coding
  import opened LogFormat

  // Beyond the types that are written.
  const EOF_TYPE := 5
  const BAD_RECORD := 6

  datatype Report = Report(bytes: nat, reason: string)

  // ---------- What the reader computes, as functions of the file and a position ----------

  datatype Parsed = Parsed(recordType: nat, fragment: Bytes, used: nat, reports: seq<Report>)

  // The next physical record of a buffer with room for a header.
  function ParseBuffer(crc: Checksum, checksum: bool, buffer: Bytes, eof: bool): (r: Parsed)
    requires |buffer| >= HEADER_SIZE
    ensures 0 < r.used <= |buffer|
  {
    var low: nat, high: nat := buffer[4], buffer[5];
    var length := low + 256 * high;
    if HEADER_SIZE + length > |buffer| then
      if eof then Parsed(EOF_TYPE, [], |buffer|, [])
      else Parsed(BAD_RECORD, [], |buffer|, [Report(|buffer|, "bad record length")])
    else if buffer[6] == ZERO_TYPE && length == 0 then Parsed(BAD_RECORD, [], |buffer|, [])
    else if checksum && Unmask(DecodeFixed32(buffer[..4])) != crc(buffer[6..HEADER_SIZE + length]) then
      Parsed(BAD_RECORD, [], |buffer|, [Report(|buffer|, "checksum mismatch")])
    else Parsed(buffer[6], buffer[HEADER_SIZE..HEADER_SIZE + length], HEADER_SIZE + length, [])
  }

  // Where the part of the file that the reader holds in its buffer ends.
  function BufferEnd(file: Bytes, pos: nat): nat
    requires pos <= |file|
  {
    if pos + LeftInBlock(pos) > |file| then |file| else pos + LeftInBlock(pos)
  }

  datatype PhysicalRead = PhysicalRead(recordType: nat, fragment: Bytes, next: nat, reports: seq<Report>)

  function NextPhysical(crc: Checksum, checksum: bool, file: Bytes, pos: nat): (r: PhysicalRead)
    requires pos <= |file|
    ensures r.next <= |file| && (r.next > pos || (r.recordType == EOF_TYPE && r.reports == []))
    decreases |file| - pos
  {
    var end := BufferEnd(file, pos);
    var eof := pos + LeftInBlock(pos) > |file|;
    if end - pos < HEADER_SIZE then
      if eof then PhysicalRead(EOF_TYPE, [], |file|, []) else NextPhysical(crc, checksum, file, end)
    else
      var p := ParseBuffer(crc, checksum, file[pos..end], eof);
      PhysicalRead(p.recordType, p.fragment, pos + p.used, p.reports)
  }

  datatype RecordRead = RecordRead(record: Option<Bytes>, next: nat, reports: seq<Report>)

  function WithReports(reports: seq<Report>, r: RecordRead): RecordRead {
    r.(reports := reports + r.reports)
  }

  // What is reported when a record starts inside a fragmented one.  A writer of an
  // earlier version could leave an empty first fragment at the end of a block.
  function PartialReport(scratch: Option<Bytes>, reason: string): seq<Report> {
    if scratch.Some? && scratch.value != [] then [Report(|scratch.value|, reason)] else []
  }

  // What the fragment automaton of ReadRecord does with a physical record: it returns, or
  // it goes on.  The scratch is None outside a fragmented record.
  datatype Step = Return(record: Option<Bytes>, reports: seq<Report>) | GoOn(scratch: Option<Bytes>, reports: seq<Report>)

  function Handle(recordType: nat, fragment: Bytes, scratch: Option<Bytes>): (step: Step)
    ensures step.GoOn? ==> recordType != EOF_TYPE
  {
    if recordType == FULL_TYPE then Return(Some(fragment), PartialReport(scratch, "partial record without end(1)"))
    else if recordType == FIRST_TYPE then GoOn(Some(fragment), PartialReport(scratch, "partial record without end(2)"))
    else if recordType == MIDDLE_TYPE then
      if scratch.None? then GoOn(None, [Report(|fragment|, "missing start of fragmented record(1)")])
      else GoOn(Some(scratch.value + fragment), [])
    else if recordType == LAST_TYPE then
      if scratch.None? then GoOn(None, [Report(|fragment|, "missing start of fragmented record(2)")])
      else Return(Some(scratch.value + fragment), [])
    else if recordType == EOF_TYPE then Return(None, [])
    else if recordType == BAD_RECORD then
      GoOn(None, if scratch.None? then [] else [Report(|scratch.value|, "error in middle of record")])
    else
      GoOn(None, [Report(|fragment| + (if scratch.None? then 0 else |scratch.value|), "unknown record type")])
  }

  function ReadFrom(crc: Checksum, checksum: bool, file: Bytes, pos: nat, scratch: Option<Bytes>): (r: RecordRead)
    requires pos <= |file|
    ensures r.next <= |file| && (r.record.Some? ==> r.next > pos)
    decreases |file| - pos
  {
    var p := NextPhysical(crc, checksum, file, pos);
    match Handle(p.recordType, p.fragment, scratch)
    case Return(record, reports) => RecordRead(record, p.next, p.reports + reports)
    case GoOn(s, reports) => WithReports(p.reports + reports, ReadFrom(crc, checksum, file, p.next, s))
  }

  // ---------- The reader itself ----------

  class Reader {
    const crc: Checksum
    const checksum: bool
    var unread: Bytes
    var buffer: Bytes
    var eof: bool
    var reports: seq<Report>
    ghost const file: Bytes

    ghost function Pos(): int
      reads this
    {
      |file| - |unread| - |buffer|
    }

    ghost predicate Ok()
      reads this
    {
      && Pos() >= 0 && file[Pos()..] == buffer + unread
      && (eof ==> unread == [] && Pos() + LeftInBlock(Pos()) > |file|)
      && (!eof ==> if buffer == [] then Pos() % BLOCK_SIZE == 0 else |buffer| == LeftInBlock(Pos()))
    }

    constructor (contents: Bytes, c: Checksum, check: bool)
      ensures Ok() && Pos() == 0 && file == contents && crc == c && checksum == check && reports == []
    {
      crc, checksum, file := c, check, contents;
      unread, buffer, eof, reports := contents, [], false, [];
    }

    method ReportCorruption(bytes: nat, reason: string)
      modifies this`reports
      ensures reports == old(reports) + [Report(bytes, reason)]
    {
      reports := reports + [Report(bytes, reason)];
    }

    // SequentialFile::Read of a whole block.
    method Refill()
      requires Ok() && !eof && |buffer| < HEADER_SIZE
      modifies this`buffer, this`unread, this`eof
      ensures Ok() && Pos() == old(Pos() + |buffer|)
      ensures buffer == file[Pos()..BufferEnd(file, Pos())] && (eof <==> Pos() + LeftInBlock(Pos()) > |file|)
    {
      var n := if |unread| < BLOCK_SIZE then |unread| else BLOCK_SIZE;
      assert file[Pos() + |buffer|..] == unread;
      buffer, unread := unread[..n], unread[n..];
      assert buffer + unread == old(unread);
      if |buffer| < BLOCK_SIZE {
        eof := true;
      }
    }

    // The buffer is what the file has from here to the end of the block.
    lemma BufferIsBlock()
      requires Ok() && (eof || buffer != [])
      ensures buffer == file[Pos()..BufferEnd(file, Pos())]
      ensures eof <==> Pos() + LeftInBlock(Pos()) > |file|
    {
      assert buffer == (buffer + unread)[..|buffer|];
      if !eof { assert |file| == Pos() + |buffer| + |unread|; }
    }

    method ReadPhysicalRecord() returns (recordType: nat, fragment: Bytes)
      requires Ok()
      modifies this
      ensures Ok()
      ensures var p := NextPhysical(crc, checksum, file, old(Pos()));
              && recordType == p.recordType && fragment == p.fragment && Pos() == p.next
              && reports == old(reports) + p.reports
    {
      hide ParseBuffer;
      while |buffer| < HEADER_SIZE
        invariant Ok() && reports == old(reports)
        invariant NextPhysical(crc, checksum, file, Pos()) == NextPhysical(crc, checksum, file, old(Pos()))
        decreases !eof, |unread|
      {
        if eof {
          BufferIsBlock();
          buffer := [];
          return EOF_TYPE, [];
        }
        if buffer != [] { BufferIsBlock(); }
        Refill();
      }
      BufferIsBlock();
      recordType, fragment := ParseHeader();
    }

    // The second half of the loop body of ReadPhysicalRecord.
    method ParseHeader() returns (recordType: nat, fragment: Bytes)
      requires Ok() && |buffer| >= HEADER_SIZE
      modifies this
      ensures Ok()
      ensures var p := ParseBuffer(crc, checksum, old(buffer), old(eof));
              && recordType == p.recordType && fragment == p.fragment && Pos() == old(Pos()) + p.used
              && reports == old(reports) + p.reports
    {
      hide Fixed, DecodeFixed, Unmask;
      var header := buffer;
      var low: nat, high: nat := header[4], header[5];
      var length := low + 256 * high;
      if HEADER_SIZE + length > |buffer| {
        var dropSize := |buffer|;
        DropPrefix(|buffer|);
        if !eof {
          ReportCorruption(dropSize, "bad record length");
          return BAD_RECORD, [];
        }
        return EOF_TYPE, [];
      }
      if header[6] == ZERO_TYPE && length == 0 {
        DropPrefix(|buffer|);
        return BAD_RECORD, [];
      }
      if checksum {
        var expected := Unmask(DecodeFixed32(header[..4]));
        var actual := crc(header[6..HEADER_SIZE + length]);
        if actual != expected {
          var dropSize := |buffer|;
          DropPrefix(|buffer|);
          ReportCorruption(dropSize, "checksum mismatch");
          return BAD_RECORD, [];
        }
      }
      DropPrefix(HEADER_SIZE + length);
      return header[6], header[HEADER_SIZE..HEADER_SIZE + length];
    }

    // Slice::remove_prefix and clear.
    method DropPrefix(n: nat)
      requires Ok() && 0 < n <= |buffer|
      modifies this`buffer
      ensures Ok() && Pos() == old(Pos()) + n
    {
      assert file[Pos()..][n..] == (buffer + unread)[n..] == buffer[n..] + unread;
      buffer := buffer[n..];
    }

    method ReadRecord() returns (record: Option<Bytes>)
      requires Ok()
      modifies this
      ensures Ok()
      ensures var r := ReadFrom(crc, checksum, file, old(Pos()), None);
              record == r.record && Pos() == r.next && reports == old(reports) + r.reports
    {
      hide NextPhysical, Handle;
      var inFragmentedRecord, scratch := false, [];
      while true
        invariant Ok()
        invariant Remains(ReadFrom(crc, checksum, file, old(Pos()), None), old(reports),
                          ReadFrom(crc, checksum, file, Pos(), InFragment(inFragmentedRecord, scratch)))
        decreases |file| - Pos()
      {
        var recordType, fragment := ReadPhysicalRecord();
        var done;
        done, record, inFragmentedRecord, scratch := HandleFragment(recordType, fragment, inFragmentedRecord, scratch);
        if done {
          return;
        }
      }
    }

    // The rest of the read together with what has been reported makes up the whole read.
    ghost predicate Remains(whole: RecordRead, before: seq<Report>, rest: RecordRead)
      reads this`reports
    {
      rest.record == whole.record && rest.next == whole.next && reports + rest.reports == before + whole.reports
    }

    // The switch of ReadRecord.
    method HandleFragment(recordType: nat, fragment: Bytes, inFragmentedRecord: bool, scratch: Bytes)
      returns (done: bool, record: Option<Bytes>, nowInFragmented: bool, nowScratch: Bytes)
      modifies this`reports
      ensures match Handle(recordType, fragment, InFragment(inFragmentedRecord, scratch))
              case Return(r, rs) => done && record == r && reports == old(reports) + rs
              case GoOn(s, rs) => !done && InFragment(nowInFragmented, nowScratch) == s && reports == old(reports) + rs
    {
      done, record, nowInFragmented, nowScratch := false, None, inFragmentedRecord, scratch;
      match recordType {
        case 1 =>
          if inFragmentedRecord && scratch != [] {
            ReportCorruption(|scratch|, "partial record without end(1)");
          }
          done, record := true, Some(fragment);
        case 2 =>
          if inFragmentedRecord && scratch != [] {
            ReportCorruption(|scratch|, "partial record without end(2)");
          }
          nowInFragmented, nowScratch := true, fragment;
        case 3 =>
          if !inFragmentedRecord {
            ReportCorruption(|fragment|, "missing start of fragmented record(1)");
          } else {
            nowScratch := scratch + fragment;
          }
        case 4 =>
          if !inFragmentedRecord {
            ReportCorruption(|fragment|, "missing start of fragmented record(2)");
          } else {
            done, record := true, Some(scratch + fragment);
          }
        case 5 =>
          done := true;
        case 6 =>
          if inFragmentedRecord {
            ReportCorruption(|scratch|, "error in middle of record");
            nowInFragmented, nowScratch := false, [];
          }
        case _ =>
          ReportCorruption(|fragment| + (if inFragmentedRecord then |scratch| else 0), "unknown record type");
          nowInFragmented, nowScratch := false, [];
      }
    }
  }

  // The two variables of ReadRecord that say whether it is inside a fragmented record.
  function InFragment(inFragmentedRecord: bool, scratch: Bytes): Option<Bytes> {
    if inFragmentedRecord then Some(scratch) else None
  }
}
