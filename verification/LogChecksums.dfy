// With checksums on, a log reader returns only what stands in the file as a writer would
// have written it (db/log_reader.cc).
module LogChecksums {
  import opened DbFormat
  import opened Coding
  import opened LogFormat
  import opened LogReader

  // A physical record of this type and with this fragment is at this place of the file,
  // its own checksum in front of it.
  predicate StandsAt(crc: Checksum, file: Bytes, at: nat, t: Byte, fragment: Bytes) {
    && |fragment| <= 0xffff && at + HEADER_SIZE + |fragment| <= |file|
    && file[at..at + HEADER_SIZE + |fragment|] == Physical(crc, t, fragment)
  }

  predicate IsWritten(recordType: nat) {
    FULL_TYPE <= recordType <= LAST_TYPE
  }

  lemma HeaderParts(b: Bytes, length: nat)
    requires |b| >= HEADER_SIZE + length
    ensures b[..HEADER_SIZE + length] == b[..4] + [b[4], b[5], b[6]] + b[HEADER_SIZE..HEADER_SIZE + length]
    ensures b[6..HEADER_SIZE + length] == [b[6]] + b[HEADER_SIZE..HEADER_SIZE + length]
  {
  }

  lemma ParsedIsPhysical(crc: Checksum, buffer: Bytes, eof: bool)
    requires |buffer| >= HEADER_SIZE && IsWritten(ParseBuffer(crc, true, buffer, eof).recordType)
    ensures var p := ParseBuffer(crc, true, buffer, eof);
            |p.fragment| <= 0xffff && p.used == HEADER_SIZE + |p.fragment| && buffer[..p.used] == Physical(crc, p.recordType, p.fragment)
  {
    hide Fixed, DecodeFixed, Mask, Unmask;
    var low: nat, high: nat := buffer[4], buffer[5];
    var length := low + 256 * high;
    HeaderParts(buffer, length);
    var stored := DecodeFixed32(buffer[..4]);
    MaskUndoesUnmask(stored);
    DecodeFixedRoundTrip(buffer[..4]);
    assert length / 256 == high && length % 256 == low;
  }

  // Whatever the file holds, a fragment that is read stands there, at the end of what has
  // been read.
  lemma FragmentStands(crc: Checksum, file: Bytes, pos: nat)
    requires pos <= |file| && IsWritten(NextPhysical(crc, true, file, pos).recordType)
    ensures var p := NextPhysical(crc, true, file, pos);
            pos + HEADER_SIZE + |p.fragment| <= p.next
            && StandsAt(crc, file, p.next - HEADER_SIZE - |p.fragment|, p.recordType, p.fragment)
    decreases |file| - pos
  {
    hide ParseBuffer, Physical;
    var end := BufferEnd(file, pos);
    var eof := pos + LeftInBlock(pos) > |file|;
    if end - pos < HEADER_SIZE {
      if !eof { FragmentStands(crc, file, end); }
    } else {
      var p := ParseBuffer(crc, true, file[pos..end], eof);
      ParsedIsPhysical(crc, file[pos..end], eof);
      assert file[pos..end][..p.used] == file[pos..pos + p.used];
    }
  }

  // ---------- Whole records ----------

  datatype Fragment = Fragment(at: nat, data: Bytes)

  function Joined(fragments: seq<Fragment>): Bytes {
    if fragments == [] then [] else Joined(fragments[..|fragments| - 1]) + fragments[|fragments| - 1].data
  }

  // A first fragment and middle ones behind it, up to a position.
  ghost predicate Begins(crc: Checksum, file: Bytes, fragments: seq<Fragment>, upTo: nat) {
    && fragments != []
    && (forall i :: 0 <= i < |fragments| ==>
          StandsAt(crc, file, fragments[i].at, if i == 0 then FIRST_TYPE else MIDDLE_TYPE, fragments[i].data))
    && (forall i :: 0 < i < |fragments| ==> fragments[i - 1].at + HEADER_SIZE + |fragments[i - 1].data| <= fragments[i].at)
    && fragments[|fragments| - 1].at + HEADER_SIZE + |fragments[|fragments| - 1].data| <= upTo
  }

  ghost predicate BegunAs(crc: Checksum, file: Bytes, scratch: Bytes, upTo: nat) {
    exists fragments :: Begins(crc, file, fragments, upTo) && Joined(fragments) == scratch
  }

  // The record stands in the file: in one piece, or as a first fragment, middle ones and a
  // last one, in this order.
  ghost predicate RecordStands(crc: Checksum, file: Bytes, record: Bytes, upTo: nat) {
    || (exists at: nat :: at + HEADER_SIZE + |record| <= upTo && StandsAt(crc, file, at, FULL_TYPE, record))
    || (exists fragments, last: Fragment ::
          && Begins(crc, file, fragments, last.at) && StandsAt(crc, file, last.at, LAST_TYPE, last.data)
          && last.at + HEADER_SIZE + |last.data| <= upTo && record == Joined(fragments) + last.data)
  }

  lemma OneMoreFragment(crc: Checksum, file: Bytes, scratch: Bytes, pos: nat, at: nat, data: Bytes)
    requires BegunAs(crc, file, scratch, pos) && pos <= at && StandsAt(crc, file, at, MIDDLE_TYPE, data)
    ensures BegunAs(crc, file, scratch + data, at + HEADER_SIZE + |data|)
  {
    hide StandsAt;
    var fragments :| Begins(crc, file, fragments, pos) && Joined(fragments) == scratch;
    var more := fragments + [Fragment(at, data)];
    assert more[..|fragments|] == fragments;
    assert Begins(crc, file, more, at + HEADER_SIZE + |data|);
  }

  lemma FirstFragment(crc: Checksum, file: Bytes, at: nat, data: Bytes)
    requires StandsAt(crc, file, at, FIRST_TYPE, data)
    ensures BegunAs(crc, file, data, at + HEADER_SIZE + |data|)
  {
    hide StandsAt;
    var one := [Fragment(at, data)];
    assert one[..0] == [] && Joined(one) == data;
    assert Begins(crc, file, one, at + HEADER_SIZE + |data|);
  }

  lemma BeginsEarlier(crc: Checksum, file: Bytes, scratch: Bytes, pos: nat, next: nat)
    requires BegunAs(crc, file, scratch, pos) && pos <= next
    ensures BegunAs(crc, file, scratch, next)
  {
    hide StandsAt;
    var fragments :| Begins(crc, file, fragments, pos) && Joined(fragments) == scratch;
    assert Begins(crc, file, fragments, next);
  }

  lemma LastFragment(crc: Checksum, file: Bytes, scratch: Bytes, pos: nat, at: nat, data: Bytes)
    requires BegunAs(crc, file, scratch, pos) && pos <= at && StandsAt(crc, file, at, LAST_TYPE, data)
    ensures RecordStands(crc, file, scratch + data, at + HEADER_SIZE + |data|)
  {
    hide StandsAt;
    BeginsEarlier(crc, file, scratch, pos, at);
    var fragments :| Begins(crc, file, fragments, at) && Joined(fragments) == scratch;
    var last := Fragment(at, data);
    assert StandsAt(crc, file, last.at, LAST_TYPE, last.data);
  }

  // For every file, damaged in any way: with checksums on, a record that is returned
  // stands in the file, every fragment behind its own checksum.
  lemma {:induction false} ReturnedRecordStands(crc: Checksum, file: Bytes, pos: nat, scratch: Option<Bytes>)
    requires pos <= |file| && (scratch.Some? ==> BegunAs(crc, file, scratch.value, pos))
    ensures var r := ReadFrom(crc, true, file, pos, scratch);
            r.record.Some? ==> RecordStands(crc, file, r.record.value, r.next)
    decreases |file| - pos
  {
    hide NextPhysical, StandsAt, BegunAs, RecordStands;
    var p := NextPhysical(crc, true, file, pos);
    if IsWritten(p.recordType) {
      FragmentStands(crc, file, pos);
      var at := p.next - HEADER_SIZE - |p.fragment|;
      if p.recordType == FULL_TYPE {
        WholeStands(crc, file, p.fragment, at);
      } else if p.recordType == FIRST_TYPE {
        FirstFragment(crc, file, at, p.fragment);
        ReturnedRecordStands(crc, file, p.next, Some(p.fragment));
      } else if scratch.None? {
        ReturnedRecordStands(crc, file, p.next, None);
      } else if p.recordType == MIDDLE_TYPE {
        OneMoreFragment(crc, file, scratch.value, pos, at, p.fragment);
        ReturnedRecordStands(crc, file, p.next, Some(scratch.value + p.fragment));
      } else {
        LastFragment(crc, file, scratch.value, pos, at, p.fragment);
      }
    } else if p.recordType != EOF_TYPE {
      ReturnedRecordStands(crc, file, p.next, None);
    }
  }

  lemma WholeStands(crc: Checksum, file: Bytes, record: Bytes, at: nat)
    requires StandsAt(crc, file, at, FULL_TYPE, record)
    ensures RecordStands(crc, file, record, at + HEADER_SIZE + |record|)
  {
    hide StandsAt, Begins;
  }
}
