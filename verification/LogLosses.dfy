// What a log reader does with damaged files: nothing that it has read is lost without a
// report, except for what is cut off at the end (db/log_reader.cc).
module LogLosses {
  import opened DbFormat
  import opened Coding
  import opened LogFormat
  import opened LogReader
  import opened LogReplay

  function BytesOf(reports: seq<Report>): nat {
    if reports == [] then 0 else reports[0].bytes + BytesOf(reports[1..])
  }

  lemma {:induction false} BytesTogether(a: seq<Report>, b: seq<Report>)
    ensures BytesOf(a + b) == BytesOf(a) + BytesOf(b)
  {
    if a == [] {
      assert a + b == b;
    } else {
      BytesTogether(a[1..], b);
      assert (a + b)[1..] == a[1..] + b;
    }
  }

  // What a physical read brings along: its fragment, or what it reports as unreadable.
  // Types 5 and 6 in the file are taken for the reader's own end and bad-record marks.
  function Brought(p: PhysicalRead): nat {
    BytesOf(p.reports) + if p.recordType == EOF_TYPE || p.recordType == BAD_RECORD then 0 else |p.fragment|
  }

  function AllBrought(crc: Checksum, checksum: bool, file: Bytes, pos: nat): nat
    requires pos <= |file|
    decreases |file| - pos
  {
    var p := NextPhysical(crc, checksum, file, pos);
    Brought(p) + if p.recordType == EOF_TYPE then 0 else AllBrought(crc, checksum, file, p.next)
  }

  // What stands in the scratch when the end is reached: a record that is cut off there.
  function CutOff(crc: Checksum, checksum: bool, file: Bytes, pos: nat, scratch: Option<Bytes>): Bytes
    requires pos <= |file|
    decreases |file| - pos
  {
    var p := NextPhysical(crc, checksum, file, pos);
    if p.recordType == EOF_TYPE then Collected(scratch)
    else
      match Handle(p.recordType, p.fragment, scratch)
      case Return(_, _) => CutOff(crc, checksum, file, p.next, None)
      case GoOn(s, _) => CutOff(crc, checksum, file, p.next, s)
  }

  function TotalLength(records: seq<Bytes>): nat {
    if records == [] then 0 else |records[0]| + TotalLength(records[1..])
  }

  lemma HandledIsKeptOrReported(recordType: nat, fragment: Bytes, scratch: Option<Bytes>)
    requires recordType != EOF_TYPE
    ensures var brought := |Collected(scratch)| + if recordType == BAD_RECORD then 0 else |fragment|;
            match Handle(recordType, fragment, scratch)
            case Return(record, reports) => record.Some? && brought == |record.value| + BytesOf(reports)
            case GoOn(s, reports) => brought == |Collected(s)| + BytesOf(reports)
  {
  }

  lemma {:induction false} ReadIsKeptOrReported(crc: Checksum, checksum: bool, file: Bytes, pos: nat, scratch: Option<Bytes>)
    requires pos <= |file|
    ensures var r := ReadFrom(crc, checksum, file, pos, scratch);
            && AllBrought(crc, checksum, file, pos) + |Collected(scratch)|
               == BytesOf(r.reports)
                  + (if r.record.Some? then |r.record.value| + AllBrought(crc, checksum, file, r.next)
                     else |CutOff(crc, checksum, file, pos, scratch)|)
            && (r.record.Some? ==> CutOff(crc, checksum, file, pos, scratch) == CutOff(crc, checksum, file, r.next, None))
    decreases |file| - pos
  {
    hide NextPhysical, Handle, BytesOf;
    var p := NextPhysical(crc, checksum, file, pos);
    if p.recordType == EOF_TYPE {
      EndIsQuiet(p, scratch);
    } else {
      HandledIsKeptOrReported(p.recordType, p.fragment, scratch);
      match Handle(p.recordType, p.fragment, scratch)
      case Return(record, reports) => BytesTogether(p.reports, reports);
      case GoOn(s, reports) =>
        ReadIsKeptOrReported(crc, checksum, file, p.next, s);
        BytesTogether(p.reports, reports);
        BytesTogether(p.reports + reports, ReadFrom(crc, checksum, file, p.next, s).reports);
    }
  }

  lemma EndIsQuiet(p: PhysicalRead, scratch: Option<Bytes>)
    requires p.recordType == EOF_TYPE
    ensures Handle(p.recordType, p.fragment, scratch) == Return(None, []) && BytesOf([]) == 0
    ensures BytesOf(p.reports + []) == BytesOf(p.reports)
  {
    assert p.reports + [] == p.reports;
  }

  // For every file, with and without checksums: all that the physical reads bring along is
  // returned in records, reported, or part of the record that is cut off at the end.
  lemma {:induction false} NothingIsLostSilently(crc: Checksum, checksum: bool, file: Bytes, pos: nat)
    requires pos <= |file|
    ensures var (records, reports) := ReadAll(crc, checksum, file, pos);
            AllBrought(crc, checksum, file, pos)
            == TotalLength(records) + BytesOf(reports) + |CutOff(crc, checksum, file, pos, None)|
    decreases |file| - pos
  {
    hide ReadFrom, AllBrought, CutOff, BytesOf;
    var first := ReadFrom(crc, checksum, file, pos, None);
    ReadIsKeptOrReported(crc, checksum, file, pos, None);
    if first.record.Some? {
      NothingIsLostSilently(crc, checksum, file, first.next);
      var rest := ReadAll(crc, checksum, file, first.next);
      BytesTogether(first.reports, rest.1);
    }
  }

  // When the rest of a block is given up, all of it is reported, unless its header is the
  // zeros of preallocated space or a record that calls itself bad.
  lemma GivenUpIsReported(crc: Checksum, checksum: bool, buffer: Bytes, eof: bool)
    requires |buffer| >= HEADER_SIZE && ParseBuffer(crc, checksum, buffer, eof).recordType == BAD_RECORD
    ensures var p := ParseBuffer(crc, checksum, buffer, eof);
            || (p.used == |buffer| == BytesOf(p.reports))
            || (p.used == |buffer| && buffer[4] == buffer[5] == buffer[6] == 0 && p.reports == [])
            || (buffer[6] == BAD_RECORD && p.reports == [])
  {
    hide Unmask, DecodeFixed;
    var p := ParseBuffer(crc, checksum, buffer, eof);
    if p.reports != [] { assert p.reports[1..] == []; }
  }

  // The quirk, for every checksum and whatever follows: a well-formed record of type 5 at
  // the front of a file hides all the rest of the file without a report.
  lemma StrayEndMarkHidesTheRest(crc: Checksum, fragment: Bytes, rest: Bytes)
    requires HEADER_SIZE + |fragment| <= BLOCK_SIZE
    ensures ReadAll(crc, true, Physical(crc, EOF_TYPE, fragment) + rest, 0) == ([], [])
  {
    hide Physical, ParseBuffer;
    var record := Physical(crc, EOF_TYPE, fragment);
    var file := record + rest;
    var end := BufferEnd(file, 0);
    assert file[0..end] == record + file[|record|..end];
    ParseWritten(crc, true, EOF_TYPE, fragment, file[|record|..end], LeftInBlock(0) > |file|);
    var p := NextPhysical(crc, true, file, 0);
    assert p.recordType == EOF_TYPE && p.reports == [];
    EndIsQuiet(p, None);
    assert ReadFrom(crc, true, file, 0, None).record == None && ReadFrom(crc, true, file, 0, None).reports == [];
  }

  // Preallocated space, whatever its length, is skipped without a report.
  lemma ZerosAreSkipped(crc: Checksum, checksum: bool, file: Bytes, pos: nat)
    requires pos <= |file| && forall i :: pos <= i < |file| ==> file[i] == 0
    ensures ReadAll(crc, checksum, file, pos) == ([], [])
  {
    ZerosAreRead(crc, checksum, file, pos);
  }

  lemma {:induction false} ZerosAreRead(crc: Checksum, checksum: bool, file: Bytes, pos: nat)
    requires pos <= |file| && forall i :: pos <= i < |file| ==> file[i] == 0
    ensures ReadFrom(crc, checksum, file, pos, None).record == None && ReadFrom(crc, checksum, file, pos, None).reports == []
    decreases |file| - pos
  {
    hide ParseBuffer;
    ZerosAreBad(crc, checksum, file, pos);
    var p := NextPhysical(crc, checksum, file, pos);
    if p.recordType == BAD_RECORD {
      ZerosAreRead(crc, checksum, file, p.next);
    }
  }

  lemma {:induction false} ZerosAreBad(crc: Checksum, checksum: bool, file: Bytes, pos: nat)
    requires pos <= |file| && forall i :: pos <= i < |file| ==> file[i] == 0
    ensures var p := NextPhysical(crc, checksum, file, pos);
            (p.recordType == EOF_TYPE || p.recordType == BAD_RECORD) && p.reports == []
    decreases |file| - pos
  {
    hide Unmask, DecodeFixed;
    var end := BufferEnd(file, pos);
    if end - pos < HEADER_SIZE && pos + LeftInBlock(pos) <= |file| {
      ZerosAreBad(crc, checksum, file, end);
    }
  }
}
