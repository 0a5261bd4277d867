// Iterating over a block (table/block.cc): a cursor over the pairs that were added.
module BlockIter {
  import opened DbFormat
  import opened Coding
  import KeyCoding
  import opened BlockFormat

  // Strictly increasing keys under the comparator.
  predicate Increasing(pairs: seq<Pair>, rank: KeyCoding.Rank) {
    forall i, j :: 0 <= i < j < |pairs| ==> rank(pairs[i].key) < rank(pairs[j].key)
  }

  // Lengths and offsets fit 32 bits.
  predicate Fits(pairs: seq<Pair>, interval: nat)
    requires interval >= 1
  {
    |BlockBytes(pairs, interval)| < TWO_32
  }

  // ---------- What the bytes of a block hold ----------

  lemma PartsOfBlock(pairs: seq<Pair>, interval: nat)
    requires interval >= 1 && Fits(pairs, interval)
    ensures var data, starts := BlockBytes(pairs, interval), Starts(|pairs|, interval);
            var restarts := |Buffer(pairs, interval)|;
            && |data| == restarts + 4 * |starts| + 4
            && Buffer(pairs, interval) <= data
            && DecodeFixed32(data[|data| - 4..]) == |starts|
  {
    hide Buffer, Fixed32Array, Fixed32, DecodeFixed, Offsets, Starts;
    var offsets := Offsets(pairs, interval);
    ThreeParts(Buffer(pairs, interval), Fixed32Array(offsets), Fixed32(|offsets| % TWO_32));
    Fixed32RoundTrip(|offsets| % TWO_32);
  }

  lemma OffsetsAt(pairs: seq<Pair>, interval: nat, j: nat)
    requires interval >= 1 && j < |Starts(|pairs|, interval)|
    ensures Starts(|pairs|, interval)[j] <= |pairs|
    ensures Offsets(pairs, interval)[j] == Offset(pairs, Starts(|pairs|, interval)[j], interval)
    ensures Offset(pairs, Starts(|pairs|, interval)[j], interval) <= |Buffer(pairs, interval)|
  {
    BufferPrefix(pairs, Starts(|pairs|, interval)[j], interval);
  }

  lemma RestartPointIs(pairs: seq<Pair>, interval: nat, j: nat)
    requires interval >= 1 && Fits(pairs, interval) && j < |Starts(|pairs|, interval)|
    ensures var data, at := BlockBytes(pairs, interval), |Buffer(pairs, interval)| + 4 * j;
            && at + 4 <= |data|
            && Starts(|pairs|, interval)[j] <= |pairs|
            && DecodeFixed32(data[at..at + 4]) == Offset(pairs, Starts(|pairs|, interval)[j], interval)
  {
    hide Buffer, Fixed32Array, Fixed32, DecodeFixed, Starts, Offsets, Offset;
    var offsets := Offsets(pairs, interval);
    OffsetsAt(pairs, interval, j);
    Fixed32ArrayAt(offsets, j);
    PartOfMiddle(Buffer(pairs, interval), Fixed32Array(offsets), Fixed32(|offsets| % TWO_32), 4 * j);
    Fixed32RoundTrip(offsets[j] % TWO_32);
  }

  // A shared part is no longer than the key before, so keys cannot outgrow the block.
  lemma {:induction false} KeysFit(pairs: seq<Pair>, i: nat, interval: nat)
    requires interval >= 1 && i < |pairs|
    ensures |pairs[i].key| + |pairs[i].value| <= Offset(pairs, i + 1, interval)
  {
    hide Buffer, Varint, SharedBy;
    OffsetStep(pairs, i, interval);
    if SharedBy(pairs, i, interval) > 0 {
      assert i > 0 by { SharesNothingAtFirst(pairs, interval); }
      KeysFit(pairs, i - 1, interval);
      assert LastKey(pairs[..i]) == pairs[i - 1].key;
    }
  }

  lemma SharesNothingAtFirst(pairs: seq<Pair>, interval: nat)
    requires interval >= 1 && pairs != []
    ensures SharedBy(pairs, 0, interval) == 0
  {
  }

  // Decoding at the offset of an entry finds that entry.
  lemma EntryDecodes(pairs: seq<Pair>, i: nat, interval: nat)
    requires interval >= 1 && Fits(pairs, interval) && i < |pairs|
    ensures var data, limit := BlockBytes(pairs, interval), |Buffer(pairs, interval)|;
            var shared, pair := SharedBy(pairs, i, interval), pairs[i];
            var nonShared := |pair.key| - shared;
            var q := Offset(pairs, i + 1, interval) - nonShared - |pair.value|;
            && Offset(pairs, i, interval) < Offset(pairs, i + 1, interval) <= limit <= |data|
            && DecodeEntry(data, Offset(pairs, i, interval), limit) == Some(Decoded(shared, nonShared, |pair.value|, q))
            && 0 <= q && q + nonShared + |pair.value| <= limit
            && data[q..q + nonShared] == pair.key[shared..]
            && data[q + nonShared..q + nonShared + |pair.value|] == pair.value
  {
    hide Buffer, Fixed32Array, Fixed32, SharedBy, EntryBytes, DecodeEntry, Starts;
    var data := BlockBytes(pairs, interval);
    PartsOfBlock(pairs, interval);
    OffsetStep(pairs, i, interval);
    EntryIsThere(pairs, i, interval, data);
    KeysFit(pairs, i, interval);
    DecodeWritten(data, Offset(pairs, i, interval), |Buffer(pairs, interval)|, SharedBy(pairs, i, interval), pairs[i]);
  }

  // ---------- The iterator ----------

  lemma OffsetOrder(pairs: seq<Pair>, i: nat, j: nat, interval: nat)
    requires interval >= 1 && i <= |pairs| && j <= |pairs|
    ensures Offset(pairs, i, interval) < Offset(pairs, j, interval) <==> i < j
    ensures Offset(pairs, i, interval) == Offset(pairs, j, interval) <==> i == j
  {
    hide Offset;
    if i < j { OffsetsIncrease(pairs, i, j, interval); }
    if j < i { OffsetsIncrease(pairs, j, i, interval); }
  }

  lemma OffsetOfAll(pairs: seq<Pair>, interval: nat)
    requires interval >= 1
    ensures Offset(pairs, |pairs|, interval) == |Buffer(pairs, interval)| && Offset(pairs, 0, interval) == 0
  {
    assert pairs[..|pairs|] == pairs;
  }

  // A key of which nothing, or the whole of the key before, is there can be completed.
  lemma KeyCompletes(pairs: seq<Pair>, i: nat, interval: nat, key: Bytes, tail: Bytes)
    requires interval >= 1 && i < |pairs| && tail == pairs[i].key[SharedBy(pairs, i, interval)..]
    requires IsRestart(i, interval) || key == LastKey(pairs[..i])
    ensures SharedBy(pairs, i, interval) <= |key| && key[..SharedBy(pairs, i, interval)] + tail == pairs[i].key
  {
    var n := SharedBy(pairs, i, interval);
    assert pairs[i].key == pairs[i].key[..n] + pairs[i].key[n..];
  }

  class BlockIter {
    const data: Bytes
    const rank: KeyCoding.Rank
    const restarts: nat
    const numRestarts: nat
    var current: nat
    var restartIndex: nat
    var key: Bytes
    // value_ is a slice of the data.
    var valueStart: nat
    var valueLength: nat
    var corrupted: bool
    ghost const pairs: seq<Pair>
    ghost const interval: nat
    // The index of the current pair; the number of pairs when the iterator is not valid.
    ghost var at: nat

    ghost predicate Layout()
    {
      && interval >= 1 && Fits(pairs, interval) && data == BlockBytes(pairs, interval)
      && restarts == |Buffer(pairs, interval)| <= |data| && numRestarts == |Starts(|pairs|, interval)|
    }

    ghost predicate Standing()
      requires Layout() && at < |pairs|
      reads this
    {
      && current == Offset(pairs, at, interval) < restarts && key == pairs[at].key
      && valueStart + valueLength == Offset(pairs, at + 1, interval) <= |data|
      && data[valueStart..valueStart + valueLength] == pairs[at].value
      && restartIndex < numRestarts && Starts(|pairs|, interval)[restartIndex] <= at
      && (restartIndex + 1 < numRestarts ==> Starts(|pairs|, interval)[restartIndex + 1] >= at)
    }

    ghost predicate Ok()
      reads this
    {
      && Layout() && !corrupted && at <= |pairs|
      && (if at < |pairs| then Standing() else current == restarts && restartIndex == numRestarts)
    }

    predicate Valid()
      reads this
    {
      current < restarts
    }

    constructor (contents: Bytes, r: KeyCoding.Rank, ghost added: seq<Pair>, ghost k: nat)
      requires k >= 1 && Fits(added, k) && contents == BlockBytes(added, k)
      ensures Ok() && !Valid() && at == |added| && pairs == added && interval == k && rank == r
    {
      PartsOfBlock(added, k);
      var n := DecodeFixed32(contents[|contents| - 4..]);
      data, rank, numRestarts, restarts := contents, r, n, |contents| - (1 + n) * 4;
      current, restartIndex := |contents| - (1 + n) * 4, n;
      key, valueStart, valueLength, corrupted := [], 0, 0, false;
      pairs, interval, at := added, k, |added|;
    }

    method Key() returns (k: Bytes)
      requires Ok() && Valid()
      ensures at < |pairs| && k == pairs[at].key
    {
      k := key;
    }

    method Value() returns (v: Bytes)
      requires Ok() && Valid()
      ensures at < |pairs| && v == pairs[at].value
    {
      v := data[valueStart..valueStart + valueLength];
    }

    method GetRestartPoint(index: nat) returns (offset: nat)
      requires Layout() && index < numRestarts
      ensures Starts(|pairs|, interval)[index] <= |pairs| && offset == Offset(pairs, Starts(|pairs|, interval)[index], interval)
    {
      hide Buffer, BlockBytes, Starts, Offset, Fixed32Array;
      RestartPointIs(pairs, interval, index);
      offset := DecodeFixed32(data[restarts + 4 * index..restarts + 4 * index + 4]);
    }

    // The next entry to be parsed is the i-th, and the key of the one before is at hand if
    // it is needed.
    ghost predicate Before(i: nat)
      requires Layout()
      reads this
    {
      && i <= |pairs| && valueStart + valueLength == Offset(pairs, i, interval)
      && (i < |pairs| ==> IsRestart(i, interval) || key == LastKey(pairs[..i]))
      && restartIndex < numRestarts && Starts(|pairs|, interval)[restartIndex] <= i
    }

    method SeekToRestartPoint(index: nat)
      requires Layout() && index < numRestarts
      modifies this`key, this`restartIndex, this`valueStart, this`valueLength
      ensures Before(Starts(|pairs|, interval)[index]) && restartIndex == index
    {
      key := [];
      restartIndex := index;
      valueStart := GetRestartPoint(index);
      valueLength := 0;
    }

    static predicate InBounds(d: Option<Decoded>, limit: nat) {
      d.Some? ==> d.value.keyStart + d.value.nonShared + d.value.valueLength <= limit
    }

    method ParseNextKey(ghost i: nat) returns (ok: bool)
      requires Layout() && !corrupted && Before(i)
      modifies this
      ensures Ok() && at == i && (ok <==> i < |pairs|)
    {
      hide Buffer, Offset, Starts, SharedBy, BlockBytes, Fits, IsRestart;
      current := valueStart + valueLength;
      OffsetOrder(pairs, i, |pairs|, interval);
      OffsetOfAll(pairs, interval);
      at := i;
      if current >= restarts {
        current := restarts;
        restartIndex := numRestarts;
        return false;
      }
      ok := ParseEntry();
    }

    method ParseEntry() returns (ok: bool)
      requires Layout() && !corrupted && at < |pairs| && Before(at) && current == Offset(pairs, at, interval)
      modifies this
      ensures ok && Ok() && at == old(at)
    {
      hide Buffer, Offset, Starts, SharedBy, BlockBytes, Fits, IsRestart;
      EntryDecodes(pairs, at, interval);
      KeyCompletes(pairs, at, interval, key, pairs[at].key[SharedBy(pairs, at, interval)..]);
      ok := DecodeCurrent();
      if ok {
        AdvanceRestartIndex();
      }
    }

    // Decodes the entry at current_, completing the key from the one before.
    method DecodeCurrent() returns (ok: bool)
      requires current <= restarts <= |data| && InBounds(DecodeEntry(data, current, restarts), restarts)
      modifies this
      ensures match DecodeEntry(data, old(current), restarts)
              case None => !ok && corrupted
              case Some(d) =>
                && (ok <==> d.shared <= |old(key)|) && (!ok ==> corrupted)
                && (ok ==>
                    && key == old(key)[..d.shared] + data[d.keyStart..d.keyStart + d.nonShared]
                    && valueStart == d.keyStart + d.nonShared && valueLength == d.valueLength
                    && corrupted == old(corrupted) && current == old(current) && restartIndex == old(restartIndex) && at == old(at))
    {
      hide DecodeEntry;
      var d := DecodeEntry(data, current, restarts);
      if d.None? || |key| < d.value.shared {
        CorruptionError();
        return false;
      }
      key := key[..d.value.shared] + data[d.value.keyStart..d.value.keyStart + d.value.nonShared];
      valueStart := d.value.keyStart + d.value.nonShared;
      valueLength := d.value.valueLength;
      return true;
    }

    // The whole key stored at a restart point.
    method DecodeRestartKey(offset: nat) returns (ok: bool, k: Bytes)
      requires offset <= restarts <= |data| && InBounds(DecodeEntry(data, offset, restarts), restarts)
      modifies this
      ensures match DecodeEntry(data, offset, restarts)
              case None => !ok
              case Some(d) => (ok <==> d.shared == 0) && (ok ==> k == data[d.keyStart..d.keyStart + d.nonShared])
      ensures corrupted == (old(corrupted) || !ok)
    {
      hide DecodeEntry;
      var d := DecodeEntry(data, offset, restarts);
      if d.None? || d.value.shared != 0 {
        CorruptionError();
        return false, [];
      }
      return true, data[d.value.keyStart..d.value.keyStart + d.value.nonShared];
    }

    // The restart block that the current entry falls in.
    method AdvanceRestartIndex()
      requires Layout() && at < |pairs| && current == Offset(pairs, at, interval)
      requires restartIndex < numRestarts && Starts(|pairs|, interval)[restartIndex] <= at
      modifies this`restartIndex
      ensures restartIndex < numRestarts && Starts(|pairs|, interval)[restartIndex] <= at
      ensures restartIndex + 1 < numRestarts ==> Starts(|pairs|, interval)[restartIndex + 1] >= at
    {
      hide Offset, Starts, BlockBytes, Buffer;
      while restartIndex + 1 < numRestarts
        invariant restartIndex < numRestarts && Starts(|pairs|, interval)[restartIndex] <= at
        decreases numRestarts - restartIndex
      {
        var next := GetRestartPoint(restartIndex + 1);
        OffsetOrder(pairs, Starts(|pairs|, interval)[restartIndex + 1], at, interval);
        if next >= current {
          return;
        }
        restartIndex := restartIndex + 1;
      }
    }

    method CorruptionError()
      modifies this
      ensures corrupted
    {
      current, restartIndex, key, valueStart, valueLength, corrupted := restarts, numRestarts, [], 0, 0, true;
    }

    lemma StandingIsBeforeNext()
      requires Ok() && at < |pairs|
      ensures Before(at + 1)
    {
      assert pairs[..at + 1][at] == pairs[at];
    }

    method Next()
      requires Ok() && Valid()
      modifies this
      ensures Ok() && at == old(at) + 1
    {
      hide Buffer, BlockBytes, Starts, Offset, SharedBy, IsRestart, Fits;
      StandingIsBeforeNext();
      var _ := ParseNextKey(at + 1);
    }

    method SeekToFirst()
      requires Ok()
      modifies this
      ensures Ok() && at == 0
    {
      SeekToRestartPoint(0);
      var _ := ParseNextKey(0);
    }

    method SeekToLast()
      requires Ok()
      modifies this
      ensures Ok() && at == if pairs == [] then 0 else |pairs| - 1
    {
      hide Buffer, BlockBytes, Fits, SharedBy, Offset, IsRestart, Starts;
      SeekToRestartPoint(numRestarts - 1);
      ghost var i := Starts(|pairs|, interval)[numRestarts - 1];
      while true
        invariant Layout() && !corrupted && i <= |pairs| && Before(i) && (i < |pairs| || pairs == [])
        decreases |pairs| - i
      {
        var ok := ParseNextKey(i);
        OffsetOfAll(pairs, interval);
        if ok { OffsetOrder(pairs, i + 1, |pairs|, interval); }
        if !ok || valueStart + valueLength >= restarts {
          break;
        }
        StandingIsBeforeNext();
        i := i + 1;
      }
    }

    // Prev undoes Next.
    method Prev()
      requires Ok() && Valid()
      modifies this
      ensures Ok() && at == if old(at) == 0 then |pairs| else old(at) - 1
    {
      hide Buffer, BlockBytes, Fits, SharedBy, Offset, IsRestart, Starts;
      var original := current;
      ghost var here := at;
      var found := RestartBefore();
      if !found {
        current := restarts;
        restartIndex := numRestarts;
        at := |pairs|;
        return;
      }
      ghost var i := Starts(|pairs|, interval)[restartIndex];
      SeekToRestartPoint(restartIndex);
      while true
        invariant Layout() && !corrupted && i < here < |pairs| && Before(i)
        decreases here - i
      {
        var ok := ParseNextKey(i);
        OffsetOrder(pairs, i + 1, here, interval);
        if !ok || valueStart + valueLength >= original {
          break;
        }
        StandingIsBeforeNext();
        i := i + 1;
      }
    }

    // Back to a restart point before the current entry.
    method RestartBefore() returns (found: bool)
      requires Ok() && Valid()
      modifies this`restartIndex
      ensures found <==> at > 0
      ensures found ==> restartIndex < numRestarts && Starts(|pairs|, interval)[restartIndex] < at
    {
      while true
        invariant restartIndex < numRestarts && Starts(|pairs|, interval)[restartIndex] <= at
        decreases restartIndex
      {
        var offset := GetRestartPoint(restartIndex);
        OffsetOrder(pairs, Starts(|pairs|, interval)[restartIndex], at, interval);
        if offset < current {
          return true;
        }
        if restartIndex == 0 {
          return false;
        }
        restartIndex := restartIndex - 1;
      }
    }

    // The restart point to search from: the last one with a key before the target.
    method SearchRestarts(target: Bytes) returns (left: nat)
      requires Layout() && !corrupted
      modifies this
      ensures !corrupted && left < numRestarts
      ensures var start := Starts(|pairs|, interval)[left];
              start == 0 || (start < |pairs| && rank(pairs[start].key) < rank(target))
    {
      hide Buffer, Offset, SharedBy, BlockBytes, Fits;
      left := 0;
      var right := numRestarts - 1;
      while left < right
        invariant left <= right < numRestarts && !corrupted
        invariant var start := Starts(|pairs|, interval)[left];
                  start == 0 || (start < |pairs| && rank(pairs[start].key) < rank(target))
      {
        var mid := (left + right + 1) / 2;
        ghost var start := Starts(|pairs|, interval)[mid];
        assert Starts(|pairs|, interval)[0] < start;
        var regionOffset := GetRestartPoint(mid);
        EntryDecodes(pairs, start, interval);
        WholeKeyAt(start);
        var ok, midKey := DecodeRestartKey(regionOffset);
        if !ok {
          return;
        }
        if rank(midKey) < rank(target) {
          left := mid;
        } else {
          right := mid - 1;
        }
      }
    }

    lemma WholeKeyAt(start: nat)
      requires Layout() && start < |pairs| && IsRestart(start, interval)
      ensures SharedBy(pairs, start, interval) == 0 && pairs[start].key[0..] == pairs[start].key
    {
    }

    // Stops at the first pair whose key is at or after the target.
    method Seek(target: Bytes)
      requires Ok() && Increasing(pairs, rank)
      modifies this
      ensures Ok()
      ensures forall i :: 0 <= i < at ==> rank(pairs[i].key) < rank(target)
      ensures forall i :: at <= i < |pairs| ==> rank(pairs[i].key) >= rank(target)
    {
      hide Buffer, Offset, SharedBy, BlockBytes, Fits, Starts;
      var left := SearchRestarts(target);
      SeekToRestartPoint(left);
      ghost var i := Starts(|pairs|, interval)[left];
      while true
        invariant Layout() && !corrupted && i <= |pairs| && Before(i)
        invariant forall j :: 0 <= j < i ==> rank(pairs[j].key) < rank(target)
        decreases |pairs| - i
      {
        var ok := ParseNextKey(i);
        if !ok || rank(key) >= rank(target) {
          return;
        }
        StandingIsBeforeNext();
        i := i + 1;
      }
    }
  }
}
