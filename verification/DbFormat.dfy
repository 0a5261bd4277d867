// Internal keys and their order (db/dbformat.h, db/dbformat.cc).
module DbFormat {

  // A user key is represented by its place in the user comparator's total order.
  // Byte strings are countable, and every countable total order embeds in the
  // rationals, so a real number can stand for any key under any comparator.
  type UserKey = real
  type Value = string

  const MAX_SEQUENCE: nat := 0xFF_FFFF_FFFF_FFFF

  type SequenceNumber = n: nat | n <= MAX_SEQUENCE

  // kTypeDeletion = 0, kTypeValue = 1; seeks use the larger one.
  datatype ValueType = Deletion | Put

  datatype InternalKey = InternalKey(user: UserKey, sequence: SequenceNumber, kind: ValueType) {
    // The sequence number and the type packed into one word.
    function Tag(): nat {
      sequence * 256 + (if kind.Put? then 1 else 0)
    }
  }

  function SeekKey(user: UserKey, sequence: SequenceNumber): InternalKey {
    InternalKey(user, sequence, Put)
  }

  // The internal comparator: user keys ascending, packed tags descending.
  predicate Less(a: InternalKey, b: InternalKey) {
    a.user < b.user || (a.user == b.user && a.Tag() > b.Tag())
  }

  lemma LessIsTotalOrder(a: InternalKey, b: InternalKey, c: InternalKey)
    ensures !Less(a, a)
    ensures Less(a, b) || Less(b, a) || a == b
    ensures Less(a, b) && Less(b, c) ==> Less(a, c)
  {
  }

  datatype Entry = Entry(key: InternalKey, value: Value)

  // What a lookup reports for a user key.
  datatype Lookup = Absent | Deleted | Found(value: Value)

  function Outcome(e: Entry): Lookup {
    if e.key.kind.Put? then Found(e.value) else Deleted
  }

  datatype Option<+T> = None | Some(value: T)
}
