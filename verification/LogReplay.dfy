// Reading back what was written: a log that a crash cut off anywhere still yields exactly
// the records that were written completely, and nothing is reported.
module LogReplay {
  import opened DbFormat
  import opened Coding
  import opened LogFormat
  import opened LogReader

  // The text stands at the position in the file, as far as the file goes.
  predicate Follows(file: Bytes, pos: nat, text: Bytes) {
    pos <= |file| && forall i :: 0 <= i < |text| && pos + i < |file| ==> file[pos + i] == text[i]
  }

  lemma FollowsSplit(file: Bytes, pos: nat, a: Bytes, b: Bytes)
    requires Follows(file, pos, a + b)
    ensures Follows(file, pos, a)
    ensures pos + |a| <= |file| ==> Follows(file, pos + |a|, b)
  {
    assert forall i :: 0 <= i < |a| ==> (a + b)[i] == a[i];
    assert forall i :: 0 <= i < |b| ==> (a + b)[|a| + i] == b[i];
  }

  // A buffer that begins with a whole physical record yields its fragment.
  lemma ParseWritten(crc: Checksum, checksum: bool, t: Byte, fragment: Bytes, rest: Bytes, eof: bool)
    requires |fragment| <= 0xffff && t != ZERO_TYPE
    ensures ParseBuffer(crc, checksum, Physical(crc, t, fragment) + rest, eof)
         == Parsed(t, fragment, HEADER_SIZE + |fragment|, [])
  {
    var buffer := Physical(crc, t, fragment) + rest;
    var masked := Mask(crc([t] + fragment));
    assert buffer[..4] == Fixed32(masked);
    Fixed32RoundTrip(masked);
    UnmaskUndoesMask(crc([t] + fragment));
    assert buffer[6..HEADER_SIZE + |fragment|] == [t] + fragment;
    assert buffer[HEADER_SIZE..HEADER_SIZE + |fragment|] == fragment;
  }

  // With its header there but some of the fragment missing, the file has ended.
  lemma ParseCut(crc: Checksum, checksum: bool, t: Byte, fragment: Bytes, n: nat)
    requires |fragment| <= 0xffff && HEADER_SIZE <= n < HEADER_SIZE + |fragment|
    ensures ParseBuffer(crc, checksum, Physical(crc, t, fragment)[..n], true) == Parsed(EOF_TYPE, [], n, [])
  {
  }

  lemma BufferAt(file: Bytes, pos: nat, text: Bytes)
    requires Follows(file, pos, text) && |text| <= LeftInBlock(pos)
    ensures var buffer := file[pos..BufferEnd(file, pos)];
            if pos + |text| <= |file| then buffer == text + buffer[|text|..]
            else buffer == text[..|file| - pos] && pos + LeftInBlock(pos) > |file|
  {
  }

  lemma PhysicalIsRead(crc: Checksum, checksum: bool, file: Bytes, pos: nat, t: Byte, fragment: Bytes)
    requires |fragment| <= 0xffff && t != ZERO_TYPE
    requires HEADER_SIZE + |fragment| <= LeftInBlock(pos) && Follows(file, pos, Physical(crc, t, fragment))
    ensures var end := pos + HEADER_SIZE + |fragment|;
            NextPhysical(crc, checksum, file, pos) ==
              if end <= |file| then PhysicalRead(t, fragment, end, []) else PhysicalRead(EOF_TYPE, [], |file|, [])
  {
    hide ParseBuffer, Physical;
    var text := Physical(crc, t, fragment);
    BufferAt(file, pos, text);
    var buffer := file[pos..BufferEnd(file, pos)];
    if pos + |text| <= |file| {
      ParseWritten(crc, checksum, t, fragment, buffer[|text|..], pos + LeftInBlock(pos) > |file|);
    } else if |file| - pos >= HEADER_SIZE {
      ParseCut(crc, checksum, t, fragment, |file| - pos);
    }
  }

  // A trailer is skipped, or the file ends in it.
  lemma TrailerIsSkipped(crc: Checksum, checksum: bool, file: Bytes, pos: nat)
    requires pos <= |file|
    ensures var next := pos + |Trailer(pos)|;
            NextPhysical(crc, checksum, file, pos) ==
              if next <= |file| then NextPhysical(crc, checksum, file, next) else PhysicalRead(EOF_TYPE, [], |file|, [])
  {
  }

  lemma PieceIsRead(crc: Checksum, checksum: bool, file: Bytes, left: Bytes, pos: nat, begin: bool)
    requires Follows(file, pos, Piece(crc, left, pos, begin))
    ensures var n := Fits(left, pos);
            var end := pos + |Piece(crc, left, pos, begin)|;
            NextPhysical(crc, checksum, file, pos) ==
              if end <= |file| then PhysicalRead(TypeOf(begin, n == |left|), left[..n], end, [])
              else PhysicalRead(EOF_TYPE, [], |file|, [])
  {
    hide NextPhysical;
    var n, next := Fits(left, pos), pos + |Trailer(pos)|;
    var t := TypeOf(begin, n == |left|);
    TrailerIsSkipped(crc, checksum, file, pos);
    FollowsSplit(file, pos, Trailer(pos), Physical(crc, t, left[..n]));
    AfterTrailer(pos);
    if next <= |file| {
      PhysicalIsRead(crc, checksum, file, next, t, left[..n]);
    }
  }

  function Collected(scratch: Option<Bytes>): Bytes {
    if scratch.Some? then scratch.value else []
  }

  lemma LastPieceIsRead(crc: Checksum, checksum: bool, file: Bytes, left: Bytes, pos: nat, scratch: Option<Bytes>)
    requires Fits(left, pos) == |left| && Follows(file, pos, Piece(crc, left, pos, scratch.None?))
    ensures var end := pos + |Piece(crc, left, pos, scratch.None?)|;
            ReadFrom(crc, checksum, file, pos, scratch) ==
              if end <= |file| then RecordRead(Some(Collected(scratch) + left), end, []) else RecordRead(None, |file|, [])
  {
    hide Piece, NextPhysical, Fits;
    PieceIsRead(crc, checksum, file, left, pos, scratch.None?);
    assert left[..|left|] == left && [] + left == left;
  }

  lemma MiddlePieceIsRead(crc: Checksum, checksum: bool, file: Bytes, left: Bytes, pos: nat, scratch: Option<Bytes>)
    requires Fits(left, pos) < |left| && Follows(file, pos, Piece(crc, left, pos, scratch.None?))
    ensures var next := pos + |Piece(crc, left, pos, scratch.None?)|;
            ReadFrom(crc, checksum, file, pos, scratch) ==
              if next <= |file| then ReadFrom(crc, checksum, file, next, Some(Collected(scratch) + left[..Fits(left, pos)]))
              else RecordRead(None, |file|, [])
  {
    hide Piece, NextPhysical, Fits;
    PieceIsRead(crc, checksum, file, left, pos, scratch.None?);
    assert [] + left[..Fits(left, pos)] == left[..Fits(left, pos)];
    NoReports(ReadFrom(crc, checksum, file, pos, scratch));
  }

  lemma NoReports(r: RecordRead)
    ensures forall s: RecordRead :: WithReports([], s) == s
  {
    forall s: RecordRead ensures WithReports([], s) == s {
      assert [] + s.reports == s.reports;
    }
  }

  // One record, from wherever the writer has got to in it.
  lemma {:induction false} EmitIsRead(crc: Checksum, checksum: bool, file: Bytes, left: Bytes, pos: nat, scratch: Option<Bytes>)
    requires Follows(file, pos, Emit(crc, left, pos, scratch.None?))
    ensures var end := pos + |Emit(crc, left, pos, scratch.None?)|;
            ReadFrom(crc, checksum, file, pos, scratch) ==
              if end <= |file| then RecordRead(Some(Collected(scratch) + left), end, [])
              else RecordRead(None, |file|, [])
    decreases |left|, if Avail(pos) == 0 then 1 else 0
  {
    hide Piece, ReadFrom, Follows;
    var n, piece := Fits(left, pos), Piece(crc, left, pos, scratch.None?);
    var next := pos + |piece|;
    if n == |left| {
      LastPieceIsRead(crc, checksum, file, left, pos, scratch);
    } else {
      BlockIsFilled(left, pos, |piece|);
      FollowsSplit(file, pos, piece, Emit(crc, left[n..], next, false));
      MiddlePieceIsRead(crc, checksum, file, left, pos, scratch);
      if next <= |file| {
        EmitIsRead(crc, checksum, file, left[n..], next, Some(Collected(scratch) + left[..n]));
        assert Collected(scratch) + left[..n] + left[n..] == Collected(scratch) + left;
      }
    }
  }

  // ---------- Whole logs ----------

  // All records a reader returns, and everything it reports.
  function ReadAll(crc: Checksum, checksum: bool, file: Bytes, pos: nat): (r: (seq<Bytes>, seq<Report>))
    requires pos <= |file|
    decreases |file| - pos
  {
    var first := ReadFrom(crc, checksum, file, pos, None);
    if first.record.None? then ([], first.reports)
    else
      var rest := ReadAll(crc, checksum, file, first.next);
      ([first.record.value] + rest.0, first.reports + rest.1)
  }

  // How many records lie wholly in the first n bytes of their log.
  function Whole(crc: Checksum, records: seq<Bytes>, n: nat): (k: nat)
    ensures k <= |records| && |LogOf(crc, records[..k])| <= n
    ensures k < |records| ==> |LogOf(crc, records[..k + 1])| > n
  {
    if |LogOf(crc, records)| <= n then
      assert records[..|records|] == records;
      |records|
    else
      var front := records[..|records| - 1];
      var k := Whole(crc, front, n);
      assert front[..k] == records[..k];
      assert k < |front| ==> front[..k + 1] == records[..k + 1];
      assert k == |front| ==> records[..k + 1] == records;
      k
  }

  lemma {:induction false} LogOfPrefix(crc: Checksum, records: seq<Bytes>, i: nat)
    requires i <= |records|
    ensures LogOf(crc, records[..i]) <= LogOf(crc, records)
  {
    if i < |records| {
      var front := records[..|records| - 1];
      assert front[..i] == records[..i];
      LogOfPrefix(crc, front, i);
    } else {
      assert records[..i] == records;
    }
  }

  lemma NextRecordFollows(crc: Checksum, records: seq<Bytes>, n: nat, i: nat)
    requires n <= |LogOf(crc, records)| && i < |records| && |LogOf(crc, records[..i])| <= n
    ensures var pos := |LogOf(crc, records[..i])|;
            && Follows(LogOf(crc, records)[..n], pos, Emit(crc, records[i], pos, true))
            && pos + |Emit(crc, records[i], pos, true)| == |LogOf(crc, records[..i + 1])|
  {
    hide Emit, Follows;
    var upTo := records[..i + 1];
    assert upTo[..i] == records[..i];
    LogOfPrefix(crc, records, i + 1);
    var pos := |LogOf(crc, records[..i])|;
    var text := Emit(crc, records[i], pos, true);
    assert LogOf(crc, upTo) == LogOf(crc, records[..i]) + text;
    TextFollows(LogOf(crc, records), n, LogOf(crc, records[..i]), text);
  }

  lemma TextFollows(log: Bytes, n: nat, front: Bytes, text: Bytes)
    requires front + text <= log && |front| <= n <= |log|
    ensures Follows(log[..n], |front|, text)
  {
    forall i | 0 <= i < |text| && |front| + i < n ensures log[..n][|front| + i] == text[i] {
      assert (front + text)[|front| + i] == text[i];
    }
  }

  // The rest of the log, from the start of a record on.
  lemma {:induction false} RestIsRead(crc: Checksum, checksum: bool, records: seq<Bytes>, n: nat, i: nat)
    requires n <= |LogOf(crc, records)| && i <= Whole(crc, records, n) && |LogOf(crc, records[..i])| <= n
    ensures ReadAll(crc, checksum, LogOf(crc, records)[..n], |LogOf(crc, records[..i])|)
         == (records[i..Whole(crc, records, n)], [])
    decreases |records| - i
  {
    hide Emit, ReadFrom, Whole, LogOf, Follows;
    var file, pos, k := LogOf(crc, records)[..n], |LogOf(crc, records[..i])|, Whole(crc, records, n);
    if i < |records| {
      NextRecordFollows(crc, records, n, i);
      EmitIsRead(crc, checksum, file, records[i], pos, None);
      if i < k {
        LogOfMonotone(crc, records, i + 1, k);
        RestIsRead(crc, checksum, records, n, i + 1);
        assert records[i..k] == [records[i]] + records[i + 1..k];
        assert [] + records[i] == records[i];
        var first, rest := ReadFrom(crc, checksum, file, pos, None), ReadAll(crc, checksum, file, |LogOf(crc, records[..i + 1])|);
        assert first == RecordRead(Some(records[i]), |LogOf(crc, records[..i + 1])|, []);
        assert rest.1 + [] == [];
        assert first.reports + rest.1 == [];
      } else {
        assert records[i..k] == [];
      }
    } else {
      assert records[..i] == records && pos == n && records[i..k] == [];
      NothingLeft(crc, checksum, file);
    }
  }

  lemma LogOfMonotone(crc: Checksum, records: seq<Bytes>, i: nat, j: nat)
    requires i <= j <= |records|
    ensures |LogOf(crc, records[..i])| <= |LogOf(crc, records[..j])|
  {
    assert records[..j][..i] == records[..i];
    LogOfPrefix(crc, records[..j], i);
  }

  lemma NothingLeft(crc: Checksum, checksum: bool, file: Bytes)
    ensures ReadFrom(crc, checksum, file, |file|, None) == RecordRead(None, |file|, [])
  {
  }

  // The theorem, for every list of records and every prefix of their log.
  lemma PrefixIsReplayed(crc: Checksum, checksum: bool, records: seq<Bytes>, n: nat)
    requires n <= |LogOf(crc, records)|
    ensures ReadAll(crc, checksum, LogOf(crc, records)[..n], 0) == (records[..Whole(crc, records, n)], [])
  {
    assert records[..0] == [];
    RestIsRead(crc, checksum, records, n, 0);
    assert records[0..Whole(crc, records, n)] == records[..Whole(crc, records, n)];
  }

  lemma LogIsReplayed(crc: Checksum, checksum: bool, records: seq<Bytes>)
    ensures ReadAll(crc, checksum, LogOf(crc, records), 0) == (records, [])
  {
    var log := LogOf(crc, records);
    PrefixIsReplayed(crc, checksum, records, |log|);
    assert log[..|log|] == log && records[..|records|] == records;
  }
}
