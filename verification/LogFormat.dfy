// The log file format (db/log_format.h) and what the writer emits for a record.
module LogFormat {
  import opened Coding

  const BLOCK_SIZE := 32768
  // Checksum (4 bytes), length (2 bytes), type (1 byte).
  const HEADER_SIZE := 7

  const ZERO_TYPE: Byte := 0
  const FULL_TYPE: Byte := 1
  const FIRST_TYPE: Byte := 2
  const MIDDLE_TYPE: Byte := 3
  const LAST_TYPE: Byte := 4

  // The checksum function is a parameter.
  type Checksum = Bytes -> Word32

  function TypeOf(begin: bool, end: bool): Byte {
    if begin && end then FULL_TYPE
    else if begin then FIRST_TYPE
    else if end then LAST_TYPE
    else MIDDLE_TYPE
  }

  function Physical(crc: Checksum, t: Byte, fragment: Bytes): (r: Bytes)
    requires |fragment| <= 0xffff
    ensures |r| == HEADER_SIZE + |fragment|
  {
    Fixed32(Mask(crc([t] + fragment))) + [|fragment| % 256, |fragment| / 256, t] + fragment
  }

  function Zeros(n: nat): (r: Bytes)
    ensures |r| == n
  {
    seq(n, _ => 0)
  }

  // What is left of the block at a position in the file; a whole block at its start.
  function LeftInBlock(pos: nat): (n: nat)
    ensures 0 < n <= BLOCK_SIZE
  {
    BLOCK_SIZE - pos % BLOCK_SIZE
  }

  // A header never crosses into the next block.
  function Trailer(pos: nat): Bytes {
    if LeftInBlock(pos) < HEADER_SIZE then Zeros(LeftInBlock(pos)) else []
  }

  function Avail(pos: nat): (n: nat)
    ensures n <= BLOCK_SIZE - HEADER_SIZE
  {
    LeftInBlock(pos + |Trailer(pos)|) - HEADER_SIZE
  }

  lemma AfterTrailer(pos: nat)
    ensures LeftInBlock(pos + |Trailer(pos)|) >= HEADER_SIZE
    ensures Trailer(pos) != [] ==> LeftInBlock(pos + |Trailer(pos)|) == BLOCK_SIZE
  {
  }

  // How much of the data goes into the next fragment.
  function Fits(left: Bytes, pos: nat): (n: nat)
    ensures n <= |left| && n <= Avail(pos)
  {
    if |left| < Avail(pos) then |left| else Avail(pos)
  }

  // The trailer and the fragment that come next.
  function Piece(crc: Checksum, left: Bytes, pos: nat, begin: bool): (r: Bytes)
    ensures |r| == |Trailer(pos)| + HEADER_SIZE + Fits(left, pos)
  {
    var n := Fits(left, pos);
    Trailer(pos) + Physical(crc, TypeOf(begin, n == |left|), left[..n])
  }

  lemma BlockIsFilled(left: Bytes, pos: nat, size: nat)
    requires Fits(left, pos) < |left| && size == |Trailer(pos)| + HEADER_SIZE + Fits(left, pos)
    ensures (pos + size) % BLOCK_SIZE == 0 && Avail(pos + size) > 0
  {
    AfterTrailer(pos);
  }

  // Everything AddRecord appends for a record at a position in the file.
  function Emit(crc: Checksum, left: Bytes, pos: nat, begin: bool): (r: Bytes)
    ensures |r| >= HEADER_SIZE
    decreases |left|, if Avail(pos) == 0 then 1 else 0
  {
    var piece := Piece(crc, left, pos, begin);
    var n := Fits(left, pos);
    if n == |left| then piece
    else
      BlockIsFilled(left, pos, |piece|);
      piece + Emit(crc, left[n..], pos + |piece|, false)
  }

  // The log of a list of records.
  function LogOf(crc: Checksum, records: seq<Bytes>): (r: Bytes)
    ensures |r| >= HEADER_SIZE * |records|
  {
    if records == [] then []
    else
      var front := LogOf(crc, records[..|records| - 1]);
      front + Emit(crc, records[|records| - 1], |front|, true)
  }

  // ---------- What doc/log_format.txt says of the bytes ----------

  // The header: a checksum of what follows the length, the length, the type.
  lemma PhysicalLayout(crc: Checksum, t: Byte, fragment: Bytes, r: Bytes)
    requires |fragment| <= 0xffff && r == Physical(crc, t, fragment)
    ensures Unmask(DecodeFixed32(r[..4])) == crc(r[6..])
    ensures |fragment| == r[4] as int + 256 * r[5] as int && r[6] == t && r[7..] == fragment
  {
    hide Fixed, DecodeFixed, Mask, Unmask;
    var sum := crc([t] + fragment);
    assert r[..4] == Fixed32(Mask(sum)) && r[6..] == [t] + fragment;
    Fixed32RoundTrip(Mask(sum));
    UnmaskUndoesMask(sum);
  }

  // A fragment never leaves its block, and zeros fill a block whose rest is too short for
  // a header.
  lemma PieceStaysInBlock(crc: Checksum, left: Bytes, pos: nat, begin: bool)
    ensures var start := pos + |Trailer(pos)|;
            && (forall i :: 0 <= i < |Trailer(pos)| ==> Trailer(pos)[i] == 0)
            && (Trailer(pos) == [] || (start % BLOCK_SIZE == 0 && |Trailer(pos)| < HEADER_SIZE))
            && start / BLOCK_SIZE == (pos + |Piece(crc, left, pos, begin)| - 1) / BLOCK_SIZE
  {
    hide Physical;
    AfterTrailer(pos);
    var start := pos + |Trailer(pos)|;
    var n := HEADER_SIZE + Fits(left, pos);
    assert start % BLOCK_SIZE + n <= BLOCK_SIZE;
    SameBlock(start, n);
  }

  lemma SameBlock(start: nat, n: nat)
    requires n > 0 && start % BLOCK_SIZE + n <= BLOCK_SIZE
    ensures start / BLOCK_SIZE == (start + n - 1) / BLOCK_SIZE
  {
  }
}
