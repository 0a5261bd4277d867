// Write batches (db/write_batch.cc): a header with a sequence number and a count, then one
// record for every operation.
module WriteBatch {
  import opened DbFormat
  import opened Coding

  datatype Op = Put(key: Bytes, value: Bytes) | Delete(key: Bytes)

  const HEADER := 12
  const TYPE_DELETION: Byte := 0
  const TYPE_VALUE: Byte := 1

  // The lengths fit their 32-bit codes.
  predicate Small(op: Op) {
    |op.key| < TWO_32 && (op.Put? ==> |op.value| < TWO_32)
  }

  predicate AllSmall(ops: seq<Op>) {
    forall i :: 0 <= i < |ops| ==> Small(ops[i])
  }

  function Record(op: Op): (s: Bytes)
    ensures |s| > 0
  {
    match op
    case Put(key, value) => [TYPE_VALUE] + LengthPrefixed(key) + LengthPrefixed(value)
    case Delete(key) => [TYPE_DELETION] + LengthPrefixed(key)
  }

  function Records(ops: seq<Op>): Bytes {
    if ops == [] then [] else Record(ops[0]) + Records(ops[1..])
  }

  // The representation of a batch.
  function Rep(sequence: Word64, ops: seq<Op>): (s: Bytes)
    ensures |s| >= HEADER
  {
    Fixed64(sequence) + Fixed32(|ops| % TWO_32) + Records(ops)
  }

  lemma {:induction false} RecordsTogether(a: seq<Op>, b: seq<Op>)
    ensures Records(a + b) == Records(a) + Records(b)
  {
    hide Record;
    if a == [] {
      assert a + b == b && [] + Records(b) == Records(b);
    } else {
      RecordsTogether(a[1..], b);
      assert (a + b)[1..] == a[1..] + b;
      Associative(Record(a[0]), Records(a[1..]), Records(b));
    }
  }

  function Sequence(rep: Bytes): Word64
    requires |rep| >= HEADER
  {
    DecodeFixed64(rep[..8])
  }

  // The count is read into a signed 32-bit integer.
  function Count(rep: Bytes): int
    requires |rep| >= HEADER
  {
    var c := DecodeFixed32(rep[8..12]);
    if c < TWO_32 / 2 then c else c - TWO_32
  }

  lemma HeaderOfRep(sequence: Word64, ops: seq<Op>)
    ensures Sequence(Rep(sequence, ops)) == sequence
    ensures |ops| < TWO_32 / 2 ==> Count(Rep(sequence, ops)) == |ops|
    ensures Rep(sequence, ops)[HEADER..] == Records(ops)
  {
    hide Fixed64, Fixed32, DecodeFixed, Records;
    ThreeParts(Fixed64(sequence), Fixed32(|ops| % TWO_32), Records(ops));
    Fixed64RoundTrip(sequence);
    Fixed32RoundTrip(|ops| % TWO_32);
  }

  // ---------- Iterating ----------

  // The operations that the handler has been given, and the error that ended it, if any.
  datatype Iterated = Iterated(ops: seq<Op>, error: Option<string>)

  function ParseRecord(input: Bytes): (r: Option<(Op, Bytes)>)
    requires input != []
    ensures r.Some? ==> |r.value.1| < |input|
  {
    var key := GetLengthPrefixedSlice(input[1..]);
    if key.None? then None
    else if input[0] == TYPE_DELETION then Some((Op.Delete(key.value.0), key.value.1))
    else if input[0] == TYPE_VALUE then
      var value := GetLengthPrefixedSlice(key.value.1);
      if value.None? then None else Some((Op.Put(key.value.0, value.value.0), value.value.1))
    else None
  }

  function TagError(tag: Byte): string {
    if tag == TYPE_VALUE then "bad WriteBatch Put"
    else if tag == TYPE_DELETION then "bad WriteBatch Delete"
    else "unknown WriteBatch tag"
  }

  function ParseRecords(input: Bytes): Iterated
    decreases |input|
  {
    if input == [] then Iterated([], None)
    else
      var r := ParseRecord(input);
      if r.None? then Iterated([], Some(TagError(input[0])))
      else
        var rest := ParseRecords(r.value.1);
        Iterated([r.value.0] + rest.ops, rest.error)
  }

  function IterateRep(rep: Bytes): Iterated {
    if |rep| < HEADER then Iterated([], Some("malformed WriteBatch (too small)"))
    else
      var r := ParseRecords(rep[HEADER..]);
      if r.error.None? && |r.ops| != Count(rep) then Iterated(r.ops, Some("WriteBatch has wrong count")) else r
  }

  lemma RecordRoundTrip(op: Op, rest: Bytes)
    requires Small(op)
    ensures ParseRecord(Record(op) + rest) == Some((op, rest))
  {
    hide LengthPrefixed, GetLengthPrefixedSlice;
    match op
    case Put(key, value) =>
      var input := Record(op) + rest;
      assert input[1..] == LengthPrefixed(key) + (LengthPrefixed(value) + rest);
      LengthPrefixedRoundTrip(key, LengthPrefixed(value) + rest);
      LengthPrefixedRoundTrip(value, rest);
    case Delete(key) =>
      var input := Record(op) + rest;
      assert input[1..] == LengthPrefixed(key) + rest;
      LengthPrefixedRoundTrip(key, rest);
  }

  lemma {:induction false} RecordsRoundTrip(ops: seq<Op>)
    requires AllSmall(ops)
    ensures ParseRecords(Records(ops)) == Iterated(ops, None)
  {
    hide Record, ParseRecord, Small;
    if ops != [] {
      RecordsRoundTrip(ops[1..]);
      RecordRoundTrip(ops[0], Records(ops[1..]));
      assert ops == [ops[0]] + ops[1..];
    }
  }

  // Iterating over a batch gives back its operations in order.
  lemma IterateUndoesRep(sequence: Word64, ops: seq<Op>)
    requires AllSmall(ops) && |ops| < TWO_32 / 2
    ensures IterateRep(Rep(sequence, ops)) == Iterated(ops, None)
  {
    HeaderOfRep(sequence, ops);
    RecordsRoundTrip(ops);
  }

  // ---------- Inserting into a memtable ----------

  // One call of MemTable::Add.
  datatype Insertion = Insertion(sequence: nat, kind: ValueType, key: Bytes, value: Bytes)

  function InsertionFor(op: Op, sequence: nat): Insertion {
    match op
    case Put(key, value) => Insertion(sequence, ValueType.Put, key, value)
    case Delete(key) => Insertion(sequence, Deletion, key, [])
  }

  // Consecutive sequence numbers.
  function Insertions(sequence: nat, ops: seq<Op>): (r: seq<Insertion>)
  {
    seq(|ops|, i requires 0 <= i < |ops| => InsertionFor(ops[i], sequence + i))
  }

  // What is left of the parse once some operations are done.
  ghost predicate Remains(all: Iterated, done: seq<Op>, rest: Iterated) {
    all.ops == done + rest.ops && all.error == rest.error
  }

  lemma RemainsAfterOne(all: Iterated, done: seq<Op>, op: Op, rest: Iterated)
    requires Remains(all, done, Iterated([op] + rest.ops, rest.error))
    ensures Remains(all, done + [op], rest)
  {
    assert done + ([op] + rest.ops) == (done + [op]) + rest.ops;
  }

  // WriteBatchInternal::InsertInto: the loop of WriteBatch::Iterate with a handler that
  // adds to the memtable.
  method InsertInto(rep: Bytes, mem: seq<Insertion>) returns (after: seq<Insertion>, error: Option<string>)
    requires |rep| >= HEADER
    ensures after == mem + Insertions(Sequence(rep), IterateRep(rep).ops)
    ensures |after| == |mem| + |IterateRep(rep).ops| && after[..|mem|] == mem
    ensures forall i :: 0 <= i < |IterateRep(rep).ops| ==>
      var e := after[|mem| + i];
      && e.sequence == Sequence(rep) + i
      && match IterateRep(rep).ops[i]
         case Put(key, value) => e.kind == ValueType.Put && e.key == key && e.value == value
         case Delete(key) => e.kind == Deletion && e.key == key && e.value == []
    ensures error == IterateRep(rep).error
  {
    after, error := InsertAll(rep, mem);
    InsertionsAt(Sequence(rep), IterateRep(rep).ops);
  }

  lemma InsertionsAt(sequence: nat, ops: seq<Op>)
    ensures |Insertions(sequence, ops)| == |ops|
    ensures forall i :: 0 <= i < |ops| ==>
      var e := Insertions(sequence, ops)[i];
      && e.sequence == sequence + i
      && match ops[i]
         case Put(key, value) => e.kind == ValueType.Put && e.key == key && e.value == value
         case Delete(key) => e.kind == Deletion && e.key == key && e.value == []
  {
  }

  // The loop.
  method InsertAll(rep: Bytes, mem: seq<Insertion>) returns (after: seq<Insertion>, error: Option<string>)
    requires |rep| >= HEADER
    ensures after == mem + Insertions(Sequence(rep), IterateRep(rep).ops)
    ensures error == IterateRep(rep).error
  {
    hide Sequence, Count, ParseRecord, Insertions;
    var input := rep[HEADER..];
    var sequence: nat := Sequence(rep);
    var found := 0;
    after, error := mem, None;
    ghost var all := ParseRecords(input);
    ghost var done: seq<Op> := [];
    NoInsertions(sequence, mem);
    while input != []
      invariant Remains(all, done, ParseRecords(input))
      invariant after == mem + Insertions(Sequence(rep), done)
      invariant sequence == Sequence(rep) + |done| && found == |done|
      decreases |input|
    {
      var r := ParseRecord(input);
      if r.None? {
        assert done + [] == done;
        error := Some(TagError(input[0]));
        return;
      }
      found := found + 1;
      InsertionsAppend(Sequence(rep), done, r.value.0);
      after := after + [InsertionFor(r.value.0, sequence)];
      sequence := sequence + 1;
      RemainsAfterOne(all, done, r.value.0, ParseRecords(r.value.1));
      done := done + [r.value.0];
      input := r.value.1;
    }
    assert done + [] == done;
    if found != Count(rep) {
      error := Some("WriteBatch has wrong count");
    }
  }

  lemma NoInsertions(sequence: nat, mem: seq<Insertion>)
    ensures mem + Insertions(sequence, []) == mem
  {
  }

  lemma InsertionsAppend(sequence: nat, ops: seq<Op>, op: Op)
    ensures Insertions(sequence, ops + [op]) == Insertions(sequence, ops) + [InsertionFor(op, sequence + |ops|)]
  {
  }

  // ---------- The batch object ----------

  class WriteBatch {
    var rep: Bytes
    ghost var ops: seq<Op>

    ghost predicate Ok()
      reads this
    {
      |rep| >= HEADER && rep == Rep(Sequence(rep), ops)
    }

    constructor ()
      ensures Ok() && ops == [] && Sequence(rep) == 0
    {
      rep := seq(HEADER, _ => 0);
      ops := [];
      new;
      hide Rep, Fixed, Sequence;
      EmptyRep();
      HeaderOfRep(0, []);
    }

    method SetSequence(sequence: Word64)
      requires Ok()
      modifies this`rep
      ensures Ok() && Sequence(rep) == sequence
    {
      hide Fixed, DecodeFixed, Records;
      HeaderOfRep(sequence, ops);
      ThreeParts(Fixed64(Sequence(rep)), Fixed32(|ops| % TWO_32), Records(ops));
      Associative(Fixed64(sequence), Fixed32(|ops| % TWO_32), Records(ops));
      rep := Fixed64(sequence) + rep[8..];
    }

    method SetCount(n: nat)
      requires |rep| >= HEADER
      modifies this`rep
      ensures rep == old(rep)[..8] + Fixed32(n % TWO_32) + old(rep)[HEADER..]
    {
      rep := rep[..8] + Fixed32(n % TWO_32) + rep[12..];
    }

    method Put(key: Bytes, value: Bytes)
      requires Ok() && |ops| + 1 < TWO_32 / 2
      modifies this
      ensures Ok() && ops == old(ops) + [Op.Put(key, value)] && Sequence(rep) == old(Sequence(rep))
    {
      hide Rep, Sequence, Count, LengthPrefixed, Fixed;
      AppendToRep(Sequence(rep), ops, [Op.Put(key, value)]);
      RecordsOfOne(Op.Put(key, value));
      SetCount(Count(rep) + 1);
      ghost var front := rep;
      rep := rep + [TYPE_VALUE];
      rep := rep + LengthPrefixed(key);
      rep := rep + LengthPrefixed(value);
      assert rep == front + Record(Op.Put(key, value));
      ops := ops + [Op.Put(key, value)];
    }

    method Delete(key: Bytes)
      requires Ok() && |ops| + 1 < TWO_32 / 2
      modifies this
      ensures Ok() && ops == old(ops) + [Op.Delete(key)] && Sequence(rep) == old(Sequence(rep))
    {
      hide Rep, Sequence, Count, LengthPrefixed, Fixed;
      AppendToRep(Sequence(rep), ops, [Op.Delete(key)]);
      RecordsOfOne(Op.Delete(key));
      SetCount(Count(rep) + 1);
      ghost var front := rep;
      rep := rep + [TYPE_DELETION];
      rep := rep + LengthPrefixed(key);
      assert rep == front + Record(Op.Delete(key));
      ops := ops + [Op.Delete(key)];
    }

    // WriteBatchInternal::Append: one batch after the other.
    method Append(src: WriteBatch)
      requires Ok() && src.Ok() && src != this && |ops| + |src.ops| < TWO_32 / 2
      modifies this
      ensures Ok() && ops == old(ops) + src.ops && Sequence(rep) == old(Sequence(rep))
    {
      hide Rep, Sequence, Count, Records;
      AppendToRep(Sequence(rep), ops, src.ops);
      HeaderOfRep(Sequence(src.rep), src.ops);
      SetCount(Count(rep) + Count(src.rep));
      rep := rep + src.rep[HEADER..];
      ops := ops + src.ops;
    }
  }

  lemma RecordsOfOne(op: Op)
    ensures Records([op]) == Record(op)
  {
    assert [op][1..] == [] && Record(op) + [] == Record(op);
  }

  lemma FixedZeros(width: nat)
    ensures Fixed(0, width) == seq(width, _ => 0)
  {
  }

  lemma PartsOfAppended(a: Bytes, b: Bytes, c: Bytes, newB: Bytes, d: Bytes)
    requires |a| == 8 && |b| == 4
    ensures var s := a + b + c;
            s[..8] + newB + s[HEADER..] + d == a + newB + (c + d)
  {
    ThreeParts(a, b, c);
    Associative(a + newB, c, d);
  }

  lemma AppendToRep(sequence: Word64, ops: seq<Op>, more: seq<Op>)
    requires |ops| + |more| < TWO_32 / 2
    ensures var rep := Rep(sequence, ops);
            && Count(rep) == |ops| && Sequence(rep) == sequence
            && Rep(sequence, ops + more) == rep[..8] + Fixed32(|ops| + |more|) + rep[HEADER..] + Records(more)
            && Sequence(Rep(sequence, ops + more)) == sequence
  {
    hide Fixed64, Fixed32, DecodeFixed, Records, Sequence, Count;
    HeaderOfRep(sequence, ops);
    HeaderOfRep(sequence, ops + more);
    RecordsTogether(ops, more);
    assert |ops + more| % TWO_32 == |ops| + |more|;
    assert Rep(sequence, ops + more) == Fixed64(sequence) + Fixed32(|ops| + |more|) + (Records(ops) + Records(more));
    hide Rep;
    PartsOfAppended(Fixed64(sequence), Fixed32(|ops| % TWO_32), Records(ops), Fixed32(|ops| + |more|), Records(more));
  }

  lemma EmptyRep()
    ensures seq(HEADER, _ => 0) == Rep(0, [])
  {
    FixedZeros(8);
    FixedZeros(4);
  }

  // ---------- What db/write_batch.cc says of the bytes ----------

  // The tag comes first: 1 for a value, 0 for a deletion.
  lemma RecordLayout(op: Op)
    ensures match op
            case Put(key, value) => Record(op)[0] == 1 && Record(op)[1..] == LengthPrefixed(key) + LengthPrefixed(value)
            case Delete(key) => Record(op)[0] == 0 && Record(op)[1..] == LengthPrefixed(key)
  {
  }

  // A batch without an error holds as many operations as it says.
  lemma CountIsChecked(rep: Bytes)
    requires IterateRep(rep).error.None?
    ensures |rep| >= HEADER && |IterateRep(rep).ops| == Count(rep)
  {
  }

  // The count is a signed number, so the highest bit of its last byte makes it negative.
  lemma CountIsSigned(rep: Bytes)
    requires |rep| >= HEADER
    ensures Count(rep) < 0 <==> rep[11] >= 128
    ensures Count(rep) % TWO_32 == DecodeFixed32(rep[8..12])
  {
    hide Fixed;
    var s := rep[8..12];
    assert s[1..] == rep[9..12] && s[1..][1..] == rep[10..12] && s[1..][1..][1..] == rep[11..12];
    assert rep[11..12][1..] == [] && DecodeFixed(rep[11..12]) == rep[11];
    assert DecodeFixed(rep[10..12]) == rep[10] as nat + 256 * (rep[11] as nat);
    assert DecodeFixed(rep[9..12]) == rep[9] as nat + 256 * DecodeFixed(rep[10..12]);
    assert DecodeFixed(s) == rep[8] as nat + 256 * DecodeFixed(rep[9..12]);
  }
}
