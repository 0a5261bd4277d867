// The log writer (db/log_writer.cc).
module LogWriter {
  import opened Coding
  import opened LogFormat

  // What the loop of AddRecord has still to append, one round on.
  lemma EmitUnfolds(crc: Checksum, left: Bytes, dest: Bytes, begin: bool)
    ensures var n := Fits(left, |dest|);
            var next := dest + Piece(crc, left, |dest|, begin);
            dest + Emit(crc, left, |dest|, begin) == if n == |left| then next else next + Emit(crc, left[n..], |next|, false)
  {
    hide Piece, Fits, Avail, LeftInBlock, Trailer;
    var n, piece := Fits(left, |dest|), Piece(crc, left, |dest|, begin);
    if n < |left| {
      var whole, rest := Emit(crc, left, |dest|, begin), Emit(crc, left[n..], |dest| + |piece|, false);
      assert whole == piece + rest;
      Associative(dest, piece, rest);
    }
  }

  lemma RoundShrinks(crc: Checksum, left: Bytes, dest: Bytes, begin: bool)
    requires Fits(left, |dest|) < |left|
    ensures var next := dest + Piece(crc, left, |dest|, begin);
            Avail(|next|) > 0 && (Fits(left, |dest|) > 0 || Avail(|dest|) == 0)
  {
    var piece := Piece(crc, left, |dest|, begin);
    BlockIsFilled(left, |dest|, |piece|);
  }

  // The offset in the block says what the place in the file does.
  lemma PlaceInBlock(offset: nat, pos: nat)
    requires offset <= BLOCK_SIZE && offset % BLOCK_SIZE == pos % BLOCK_SIZE
    ensures var leftover := BLOCK_SIZE - offset;
            && Trailer(pos) == (if leftover < HEADER_SIZE then Zeros(leftover) else [])
            && Avail(pos) == (if leftover < HEADER_SIZE then BLOCK_SIZE else leftover) - HEADER_SIZE
            && (if leftover < HEADER_SIZE then 0 else offset) % BLOCK_SIZE == (pos + |Trailer(pos)|) % BLOCK_SIZE
  {
  }

  lemma SameModulo(a: nat, b: nat, n: nat)
    requires a % BLOCK_SIZE == b % BLOCK_SIZE
    ensures (a + n) % BLOCK_SIZE == (b + n) % BLOCK_SIZE
  {
  }

  class Writer {
    const crc: Checksum
    var dest: Bytes
    var blockOffset: nat

    ghost predicate Ok()
      reads this
    {
      blockOffset <= BLOCK_SIZE && blockOffset % BLOCK_SIZE == |dest| % BLOCK_SIZE
    }

    constructor (checksum: Checksum)
      ensures Ok() && dest == [] && crc == checksum
    {
      crc, dest, blockOffset := checksum, [], 0;
    }

    // Appends exactly what the format prescribes for the record at this place.
    method AddRecord(record: Bytes)
      requires Ok()
      modifies this
      ensures Ok() && dest == old(dest) + Emit(crc, record, |old(dest)|, true)
    {
      hide Piece, Fits, Avail;
      var left := record;
      var begin := true;
      var more := true;
      while more
        invariant Ok()
        invariant more ==> dest + Emit(crc, left, |dest|, begin) == old(dest) + Emit(crc, record, |old(dest)|, true)
        invariant !more ==> dest == old(dest) + Emit(crc, record, |old(dest)|, true)
        decreases more, |left|, if Avail(|dest|) == 0 then 1 else 0
      {
        ghost var was := dest;
        var n := AddPiece(left, begin);
        EmitUnfolds(crc, left, was, begin);
        if n < |left| { RoundShrinks(crc, left, was, begin); }
        left := left[n..];
        begin := false;
        more := left != [];
      }
    }

    // One round of the loop.
    method AddPiece(left: Bytes, begin: bool) returns (n: nat)
      requires Ok()
      modifies this
      ensures Ok() && n == Fits(left, |old(dest)|)
      ensures dest == old(dest) + Piece(crc, left, |old(dest)|, begin)
    {
      hide Physical, Trailer, Avail, TypeOf;
      PlaceInBlock(blockOffset, |dest|);
      var leftover := BLOCK_SIZE - blockOffset;
      if leftover < HEADER_SIZE {
        dest := dest + Zeros(leftover);
        blockOffset := 0;
      }
      var avail := BLOCK_SIZE - blockOffset - HEADER_SIZE;
      n := if |left| < avail then |left| else avail;
      SameModulo(blockOffset, |dest|, HEADER_SIZE + n);
      EmitPhysicalRecord(TypeOf(begin, n == |left|), left[..n]);
    }

    method EmitPhysicalRecord(t: Byte, fragment: Bytes)
      requires |fragment| <= 0xffff && blockOffset + HEADER_SIZE + |fragment| <= BLOCK_SIZE
      modifies this
      ensures dest == old(dest) + Physical(crc, t, fragment)
      ensures blockOffset == old(blockOffset) + HEADER_SIZE + |fragment|
    {
      var header := Fixed32(Mask(crc([t] + fragment))) + [|fragment| % 256, |fragment| / 256, t];
      dest := dest + header;
      dest := dest + fragment;
      blockOffset := blockOffset + HEADER_SIZE + |fragment|;
    }
  }
}
