// The block builder as an object (table/block_builder.cc).
module BlockBuilder {
  import opened DbFormat
  import opened Coding
  import opened BlockFormat

  lemma AddedBuffer(pairs: seq<Pair>, pair: Pair, interval: nat)
    requires interval >= 1
    ensures Buffer(pairs + [pair], interval) == Buffer(pairs, interval) + EntryAt(pairs + [pair], |pairs|, interval)
  {
    assert (pairs + [pair])[..|pairs|] == pairs;
  }

  lemma AddedShare(pairs: seq<Pair>, pair: Pair, interval: nat)
    requires interval >= 1
    ensures SharedBy(pairs + [pair], |pairs|, interval)
         == if Counter(|pairs|, interval) < interval then CommonPrefix(LastKey(pairs), pair.key) else 0
  {
    assert (pairs + [pair])[..|pairs|] == pairs;
  }

  lemma AddedOffsets(pairs: seq<Pair>, pair: Pair, interval: nat)
    requires interval >= 1
    ensures Offsets(pairs + [pair], interval)
         == if Counter(|pairs|, interval) == interval then Offsets(pairs, interval) + [|Buffer(pairs, interval)|] else Offsets(pairs, interval)
  {
    hide Buffer;
    var more, n := pairs + [pair], |pairs|;
    var starts := Starts(n, interval);
    assert forall i :: 0 <= i <= n ==> more[..i] == pairs[..i];
    assert pairs[..n] == pairs;
    if n > 0 { StartsGrow(n, interval); }
    assert RestartOffsets(more, starts, interval) == RestartOffsets(pairs, starts, interval);
    if Counter(n, interval) == interval {
      assert RestartOffsets(more, starts + [n], interval) == RestartOffsets(pairs, starts, interval) + [|Buffer(pairs, interval)|];
    }
  }

  class BlockBuilder {
    const interval: nat
    var buffer: Bytes
    var restarts: seq<nat>
    var counter: nat
    var finished: bool
    var lastKey: Bytes
    ghost var pairs: seq<Pair>

    ghost predicate Ok()
      reads this
    {
      && interval >= 1 && !finished
      && buffer == Buffer(pairs, interval) && restarts == Offsets(pairs, interval)
      && counter == Counter(|pairs|, interval) && lastKey == LastKey(pairs)
    }

    constructor (restartInterval: nat)
      requires restartInterval >= 1
      ensures Ok() && pairs == [] && interval == restartInterval
    {
      interval := restartInterval;
      buffer, restarts, counter, finished, lastKey, pairs := [], [0], 0, false, [], [];
    }

    // The loop that finds out how much of the key is shared with the last one.
    method SharedPrefix(key: Bytes) returns (shared: nat)
      ensures shared == CommonPrefix(lastKey, key)
    {
      var minLength := if |lastKey| < |key| then |lastKey| else |key|;
      shared := 0;
      while shared < minLength && lastKey[shared] == key[shared]
        invariant shared <= minLength
        invariant CommonPrefix(lastKey, key) == shared + CommonPrefix(lastKey[shared..], key[shared..])
      {
        assert lastKey[shared..][1..] == lastKey[shared + 1..] && key[shared..][1..] == key[shared + 1..];
        shared := shared + 1;
      }
    }

    // Appends exactly the bytes of the new entry; every interval-th entry is a restart.
    method Add(key: Bytes, value: Bytes)
      requires Ok()
      modifies this
      ensures Ok() && pairs == old(pairs) + [Pair(key, value)]
    {
      hide Varint, Buffer, CommonPrefix, Starts, Offsets;
      var pair := Pair(key, value);
      AddedBuffer(pairs, pair, interval);
      AddedShare(pairs, pair, interval);
      AddedOffsets(pairs, pair, interval);
      var shared := 0;
      if counter < interval {
        shared := SharedPrefix(key);
      } else {
        restarts := restarts + [|buffer|];
        counter := 0;
      }
      pairs := pairs + [pair];
      AppendEntry(key, value, shared);
      lastKey := lastKey[..shared] + key[shared..];
      assert lastKey == key[..shared] + key[shared..] == key;
      counter := counter + 1;
    }

    method AppendEntry(key: Bytes, value: Bytes, shared: nat)
      requires shared <= |key|
      modifies this`buffer
      ensures buffer == old(buffer) + EntryBytes(shared, Pair(key, value))
    {
      hide Varint;
      var nonShared := |key| - shared;
      buffer := buffer + Varint(shared % TWO_32);
      buffer := buffer + Varint(nonShared % TWO_32);
      buffer := buffer + Varint(|value| % TWO_32);
      buffer := buffer + key[shared..];
      buffer := buffer + value;
      assert buffer == old(buffer) + EntryBytes(shared, Pair(key, value));
    }

    method Finish() returns (block: Bytes)
      requires Ok()
      modifies this`buffer, this`finished
      ensures block == BlockBytes(pairs, interval) && finished
    {
      hide Buffer, Offsets;
      for i := 0 to |restarts|
        invariant buffer == Buffer(pairs, interval) + Fixed32Array(restarts[..i])
      {
        assert restarts[..i + 1][..i] == restarts[..i];
        buffer := buffer + Fixed32(restarts[i] % TWO_32);
      }
      assert restarts[..|restarts|] == restarts;
      buffer := buffer + Fixed32(|restarts| % TWO_32);
      finished := true;
      block := buffer;
    }

    method Reset()
      requires interval >= 1
      modifies this
      ensures Ok() && pairs == []
    {
      buffer, restarts, counter, finished, lastKey, pairs := [], [0], 0, false, [], [];
    }
  }
}
