// Internal keys and memtable entries as bytes (db/dbformat.h, db/dbformat.cc,
// db/memtable.cc).
module KeyCoding {
  import opened DbFormat
  import opened Coding

  // The user comparator, as the place of every key in its total order.
  type Rank = Bytes -> real

  datatype ParsedKey = ParsedKey(user: Bytes, sequence: SequenceNumber, kind: ValueType) {
    function InternalKey(rank: Rank): DbFormat.InternalKey {
      DbFormat.InternalKey(rank(user), sequence, kind)
    }
  }

  function PackSequenceAndType(sequence: SequenceNumber, kind: ValueType): Word64 {
    sequence * 256 + (if kind.Put? then 1 else 0)
  }

  // AppendInternalKey.
  function Encode(key: ParsedKey): (s: Bytes)
    ensures |s| == |key.user| + 8
  {
    key.user + Fixed64(PackSequenceAndType(key.sequence, key.kind))
  }

  // ParseInternalKey: None for a key that is too short or has an unknown type.
  function Parse(s: Bytes): Option<ParsedKey> {
    if |s| < 8 then None
    else
      var tag := DecodeFixed64(s[|s| - 8..]);
      if tag % 256 > 1 then None
      else Some(ParsedKey(s[..|s| - 8], tag / 256, if tag % 256 == 1 then Put else Deletion))
  }

  lemma TailOfEncoded(key: ParsedKey)
    ensures var s := Encode(key);
            s[..|s| - 8] == key.user && DecodeFixed64(s[|s| - 8..]) == PackSequenceAndType(key.sequence, key.kind)
  {
    hide Fixed, DecodeFixed;
    var tag := PackSequenceAndType(key.sequence, key.kind);
    assert Encode(key)[|key.user|..] == Fixed64(tag);
    Fixed64RoundTrip(tag);
  }

  lemma ParseUndoesEncode(key: ParsedKey)
    ensures Parse(Encode(key)) == Some(key)
  {
    hide Encode, DecodeFixed64;
    TailOfEncoded(key);
  }

  // No two encodings of one key: what parses is what encoding gives.
  lemma EncodeUndoesParse(s: Bytes)
    requires Parse(s).Some?
    ensures Encode(Parse(s).value) == s
  {
    DecodeFixedRoundTrip(s[|s| - 8..]);
    assert s == s[..|s| - 8] + s[|s| - 8..];
  }

  // InternalKeyComparator::Compare on encoded keys.
  function Compare(rank: Rank, a: Bytes, b: Bytes): int
    requires |a| >= 8 && |b| >= 8
  {
    var ra, rb := rank(a[..|a| - 8]), rank(b[..|b| - 8]);
    if ra < rb then -1
    else if ra > rb then 1
    else
      var anum, bnum := DecodeFixed64(a[|a| - 8..]), DecodeFixed64(b[|b| - 8..]);
      if anum > bnum then -1 else if anum < bnum then 1 else 0
  }

  // On encoded keys the comparator is the order that everything else is stated in.
  lemma CompareIsLess(rank: Rank, a: ParsedKey, b: ParsedKey)
    ensures Compare(rank, Encode(a), Encode(b)) < 0 <==> Less(a.InternalKey(rank), b.InternalKey(rank))
    ensures Compare(rank, Encode(a), Encode(b)) == 0 <==> a.InternalKey(rank) == b.InternalKey(rank)
  {
    hide Encode, DecodeFixed64;
    TailOfEncoded(a);
    TailOfEncoded(b);
  }

  // ---------- Memtable entries ----------

  // What MemTable::Add stores: the internal key and the value, each with its length.
  function EncodeEntry(key: ParsedKey, value: Bytes): Bytes
    requires |key.user| + 8 < TWO_32 && |value| < TWO_32
  {
    LengthPrefixed(Encode(key)) + LengthPrefixed(value)
  }

  // The key and the value that MemTableIterator reads from an entry; what follows the
  // entry in the arena does not matter.
  function DecodeEntry(s: Bytes): Option<(Bytes, Bytes)> {
    var key := GetLengthPrefixedSlice(s);
    if key.None? then None
    else
      var value := GetLengthPrefixedSlice(key.value.1);
      if value.None? then None else Some((key.value.0, value.value.0))
  }

  lemma DecodeUndoesEncodeEntry(key: ParsedKey, value: Bytes, rest: Bytes)
    requires |key.user| + 8 < TWO_32 && |value| < TWO_32
    ensures DecodeEntry(EncodeEntry(key, value) + rest) == Some((Encode(key), value))
  {
    hide LengthPrefixed, Encode, GetLengthPrefixedSlice;
    LengthPrefixedRoundTrip(Encode(key), LengthPrefixed(value) + rest);
    LengthPrefixedRoundTrip(value, rest);
    assert EncodeEntry(key, value) + rest == LengthPrefixed(Encode(key)) + (LengthPrefixed(value) + rest);
  }

  // The key of a lookup: no entry for the user key at or below the sequence number comes
  // before it, and every newer one does.
  function LookupKey(user: Bytes, sequence: SequenceNumber): Bytes {
    Encode(ParsedKey(user, sequence, Put))
  }

  lemma LookupKeySplitsVersions(rank: Rank, key: ParsedKey, sequence: SequenceNumber)
    ensures Compare(rank, Encode(key), LookupKey(key.user, sequence)) < 0 <==> key.sequence > sequence
  {
    CompareIsLess(rank, key, ParsedKey(key.user, sequence, Put));
  }

  // The last eight bytes: the type, then the sequence number, low byte first.
  lemma TrailerLayout(key: ParsedKey, i: nat)
    requires i < 8
    ensures Encode(key)[..|key.user|] == key.user
    ensures Encode(key)[|key.user| + i]
         == if i == 0 then (if key.kind.Put? then 1 else 0) else key.sequence / Pow256(i - 1) % 256
  {
    hide Fixed;
    var tag := PackSequenceAndType(key.sequence, key.kind);
    FixedAt(tag, 8, i);
    if i > 0 { DividedTwice(tag, 256, Pow256(i - 1)); }
  }
}
