// The user-level iterator (db/db_iter.cc): a cursor over the user keys that are visible
// at a sequence number, each with its newest value.
module DbIter {
  import opened DbFormat
  import opened Tables
  import opened Merger

  predicate Live(e: Entry, sequence: SequenceNumber) {
    e.key.sequence <= sequence
  }

  // The entry is the newest one for its user key at or below the sequence number, and it
  // is a value.  These entries are what the iterator stops at.
  predicate Yields(es: seq<Entry>, sequence: SequenceNumber, i: nat)
    requires i < |es|
  {
    && Live(es[i], sequence) && es[i].key.kind.Put?
    && forall j :: 0 <= j < i && es[j].key.user == es[i].key.user ==> !Live(es[j], sequence)
  }

  // r is the first stop at or after an index; |es| if there is none.
  ghost predicate FirstFrom(es: seq<Entry>, sequence: SequenceNumber, from: nat, r: nat) {
    && r <= |es|
    && (r < |es| ==> from <= r && Yields(es, sequence, r))
    && forall i :: from <= i < r ==> !Yields(es, sequence, i)
  }

  // r is the last stop before an index; |es| if there is none.
  ghost predicate LastBefore(es: seq<Entry>, sequence: SequenceNumber, to: nat, r: nat)
    requires to <= |es|
  {
    && r <= |es|
    && (r < |es| ==> r < to && Yields(es, sequence, r))
    && forall i :: 0 <= i < to && (r == |es| || r < i) ==> !Yields(es, sequence, i)
  }

  // Like Yields, but looking back only as far as an index.
  predicate Fresh(es: seq<Entry>, sequence: SequenceNumber, from: nat, i: nat)
    requires from <= i < |es|
  {
    && Live(es[i], sequence) && es[i].key.kind.Put?
    && forall j :: from <= j < i && es[j].key.user == es[i].key.user ==> !Live(es[j], sequence)
  }

  predicate Skipped(skip: Option<UserKey>, e: Entry) {
    skip.Some? && e.key.user <= skip.value
  }

  // What the forward scan knows at index p: the stops it wants are the fresh entries that
  // are not skipped, and no live entry ahead comes before the key to skip.
  ghost predicate Scanning(es: seq<Entry>, sequence: SequenceNumber, lo: nat, p: nat, skip: Option<UserKey>) {
    && (forall i :: p <= i < |es| ==> (i >= lo && Yields(es, sequence, i) <==> Fresh(es, sequence, p, i) && !Skipped(skip, es[i])))
    && (forall i :: p <= i < |es| && Live(es[i], sequence) && skip.Some? ==> es[i].key.user >= skip.value)
  }

  lemma UsersAscend(es: seq<Entry>, i: nat, j: nat)
    requires Sorted(es) && i <= j < |es|
    ensures es[i].key.user <= es[j].key.user
  {
    SortedAt(es, i, j);
  }

  // Passing an entry that the reader cannot see.
  lemma PassUnseen(es: seq<Entry>, sequence: SequenceNumber, lo: nat, p: nat, skip: Option<UserKey>)
    requires p < |es| && Scanning(es, sequence, lo, p, skip) && !Live(es[p], sequence)
    ensures Scanning(es, sequence, lo, p + 1, skip)
    ensures p >= lo ==> !Yields(es, sequence, p)
  {
    forall i | p + 1 <= i < |es| ensures Fresh(es, sequence, p, i) == Fresh(es, sequence, p + 1, i) {
    }
  }

  // Passing an entry that hides the older ones for its user key: a deletion, or a value
  // whose key is being skipped.
  lemma PassHiding(es: seq<Entry>, sequence: SequenceNumber, lo: nat, p: nat, skip: Option<UserKey>)
    requires Sorted(es) && p < |es| && Scanning(es, sequence, lo, p, skip) && Live(es[p], sequence)
    requires es[p].key.kind.Deletion? || Skipped(skip, es[p])
    ensures Scanning(es, sequence, lo, p + 1, Some(es[p].key.user))
    ensures p >= lo ==> !Yields(es, sequence, p)
  {
    forall i | p + 1 <= i < |es|
      ensures i >= lo && Yields(es, sequence, i) <==> Fresh(es, sequence, p + 1, i) && es[i].key.user > es[p].key.user
      ensures es[i].key.user >= es[p].key.user
    {
      UsersAscend(es, p, i);
      assert i >= lo && Yields(es, sequence, i) <==> Fresh(es, sequence, p, i) && !Skipped(skip, es[i]);
      assert Fresh(es, sequence, p, i) <==> Fresh(es, sequence, p + 1, i) && es[i].key.user != es[p].key.user;
    }
    assert p >= lo && Yields(es, sequence, p) <==> Fresh(es, sequence, p, p) && !Skipped(skip, es[p]);
  }

  // The key to skip after an entry that is not a stop.
  function SkipAfter(skip: Option<UserKey>, e: Entry, sequence: SequenceNumber): Option<UserKey> {
    if Live(e, sequence) && e.key.kind.Deletion? then Some(e.key.user) else skip
  }

  predicate StopsScan(skip: Option<UserKey>, e: Entry, sequence: SequenceNumber) {
    Live(e, sequence) && e.key.kind.Put? && !Skipped(skip, e)
  }

  lemma Pass(es: seq<Entry>, sequence: SequenceNumber, lo: nat, p: nat, skip: Option<UserKey>)
    requires Sorted(es) && p < |es| && Scanning(es, sequence, lo, p, skip)
    requires !StopsScan(skip, es[p], sequence)
    ensures Scanning(es, sequence, lo, p + 1, SkipAfter(skip, es[p], sequence))
    ensures p >= lo ==> !Yields(es, sequence, p)
  {
    if Live(es[p], sequence) {
      PassHiding(es, sequence, lo, p, skip);
      assert es[p].key.kind.Put? ==> skip == Some(es[p].key.user);
    } else {
      PassUnseen(es, sequence, lo, p, skip);
    }
  }

  lemma ScanStops(es: seq<Entry>, sequence: SequenceNumber, lo: nat, p: nat, skip: Option<UserKey>)
    requires p < |es| && Scanning(es, sequence, lo, p, skip) && StopsScan(skip, es[p], sequence)
    ensures p >= lo && Yields(es, sequence, p)
  {
    assert Fresh(es, sequence, p, p);
  }

  // A scan from a seek: everything before the index is out of sight.
  lemma ScanFresh(es: seq<Entry>, sequence: SequenceNumber, p: nat)
    requires p <= |es|
    requires forall j, i :: 0 <= j < p <= i < |es| && es[j].key.user == es[i].key.user ==> !Live(es[j], sequence)
    ensures Scanning(es, sequence, p, p, None)
  {
  }

  // A scan that leaves the current stop: its own user key is skipped.
  lemma ScanPast(es: seq<Entry>, sequence: SequenceNumber, p: nat, cur: nat)
    requires Sorted(es) && p <= cur < |es| && Yields(es, sequence, cur)
    requires forall j :: p <= j < cur ==> !Live(es[j], sequence)
    ensures Scanning(es, sequence, cur + 1, p, Some(es[cur].key.user))
  {
    forall i | p <= i < |es|
      ensures i >= cur + 1 && Yields(es, sequence, i) <==> Fresh(es, sequence, p, i) && es[i].key.user > es[cur].key.user
      ensures Live(es[i], sequence) ==> es[i].key.user >= es[cur].key.user
    {
      if i > cur {
        UsersAscend(es, cur, i);
        if es[i].key.user > es[cur].key.user {
          forall j | 0 <= j < p ensures es[j].key.user != es[i].key.user { UsersAscend(es, j, cur); }
        }
      } else {
        UsersAscend(es, i, cur);
      }
    }
  }

  // What the backward scan knows once it has passed the entries from p up to a bound: m is
  // the first of them that the reader can see, and no other one of them is a stop.
  ghost predicate ScanningBack(es: seq<Entry>, sequence: SequenceNumber, bound: nat, p: nat, m: Option<nat>)
    requires p <= bound <= |es|
  {
    && (m.None? ==> forall j :: p <= j < bound ==> !Live(es[j], sequence))
    && (m.Some? ==> p <= m.value < bound && Live(es[m.value], sequence) && forall j :: p <= j < m.value ==> !Live(es[j], sequence))
    && (forall i :: p <= i < bound && Yields(es, sequence, i) ==> m == Some(i))
  }

  lemma BackOverUnseen(es: seq<Entry>, sequence: SequenceNumber, bound: nat, p: nat, m: Option<nat>)
    requires 0 < p <= bound <= |es| && ScanningBack(es, sequence, bound, p, m) && !Live(es[p - 1], sequence)
    ensures ScanningBack(es, sequence, bound, p - 1, m)
  {
  }

  lemma BackOverLive(es: seq<Entry>, sequence: SequenceNumber, bound: nat, p: nat, m: Option<nat>)
    requires Sorted(es) && 0 < p <= bound <= |es| && ScanningBack(es, sequence, bound, p, m) && Live(es[p - 1], sequence)
    requires m.Some? && es[m.value].key.kind.Put? ==> es[p - 1].key.user >= es[m.value].key.user
    ensures ScanningBack(es, sequence, bound, p - 1, Some(p - 1))
  {
    if m.Some? && es[m.value].key.kind.Put? {
      UsersAscend(es, p - 1, m.value);
      assert !Yields(es, sequence, m.value);
    }
  }

  // The entry saved by the backward scan: the first one seen so far, if it is a value.
  function Saved(es: seq<Entry>, m: Option<nat>): Option<Entry>
    requires m.Some? ==> m.value < |es|
  {
    if m.Some? && es[m.value].key.kind.Put? then Some(es[m.value]) else None
  }

  lemma BackOver(es: seq<Entry>, sequence: SequenceNumber, bound: nat, p: nat, m: Option<nat>)
    requires Sorted(es) && 0 < p <= bound <= |es| && ScanningBack(es, sequence, bound, p, m)
    requires Live(es[p - 1], sequence) && Saved(es, m).Some? ==> es[p - 1].key.user >= Saved(es, m).value.key.user
    ensures ScanningBack(es, sequence, bound, p - 1, if Live(es[p - 1], sequence) then Some(p - 1) else m)
  {
    if Live(es[p - 1], sequence) {
      BackOverLive(es, sequence, bound, p, m);
    } else {
      BackOverUnseen(es, sequence, bound, p, m);
    }
  }

  // The scan may stop here: the entry it saved is a stop, and the last one before the bound.
  lemma BackStops(es: seq<Entry>, sequence: SequenceNumber, bound: nat, p: nat, m: nat)
    requires Sorted(es) && p <= bound <= |es| && ScanningBack(es, sequence, bound, p, Some(m))
    requires es[m].key.kind.Put? && (p > 0 ==> es[p - 1].key.user < es[m].key.user)
    ensures LastBefore(es, sequence, bound, m)
  {
    if p > 0 {
      forall j | 0 <= j < p ensures es[j].key.user <= es[p - 1].key.user { UsersAscend(es, j, p - 1); }
    }
  }

  // Where the backward scan ends: at an entry for an earlier key, or with nothing left.
  lemma BackEnds(es: seq<Entry>, sequence: SequenceNumber, bound: nat, p: nat, m: Option<nat>)
    requires Sorted(es) && p <= bound <= |es| && ScanningBack(es, sequence, bound, p, m)
    requires p > 0 ==> Saved(es, m).Some? && es[p - 1].key.user < Saved(es, m).value.key.user
    ensures Saved(es, m).Some? ==> LastBefore(es, sequence, bound, m.value)
    ensures Saved(es, m).Some? ==> p <= m.value && forall j :: p <= j < m.value ==> !Live(es[j], sequence)
    ensures Saved(es, m).None? ==> LastBefore(es, sequence, bound, |es|)
  {
    if Saved(es, m).Some? { BackStops(es, sequence, bound, p, m.value); }
  }

  class DBIter {
    const iter: MergingIterator
    const sequence: SequenceNumber
    var savedKey: Option<UserKey>
    var savedValue: Value
    var direction: Direction
    var valid: bool
    // The index of the stop the iterator is on; the number of entries when it is not valid.
    ghost var cur: nat

    predicate SavedIs(e: Entry)
      reads this
    {
      savedKey == Some(e.key.user) && savedValue == e.value
    }

    ghost predicate Ok()
      reads this, iter
    {
      var inRange := cur <= |iter.merged| && (valid <==> cur < |iter.merged|);
      var onStop := inRange && valid ==>
        && Yields(iter.merged, sequence, cur)
        && (direction.Forward? ==> iter.at == cur)
        && (direction.Reverse? ==> SavedIs(iter.merged[cur]) && BehindIndex(cur));
      inRange && onStop && iter.Ok()
    }

    constructor (it: MergingIterator, s: SequenceNumber)
      requires it.Ok()
      ensures Ok() && !valid && iter == it && sequence == s
    {
      iter, sequence := it, s;
      savedKey, savedValue, direction, valid := None, "", Forward, false;
      cur := |it.merged|;
    }

    method Key() returns (k: UserKey)
      requires Ok() && valid
      ensures k == iter.merged[cur].key.user
    {
      if direction.Forward? {
        var e := iter.Current();
        k := e.key.user;
      } else {
        k := savedKey.value;
      }
    }

    method GetValue() returns (v: Value)
      requires Ok() && valid
      ensures v == iter.merged[cur].value
    {
      if direction.Forward? {
        var e := iter.Current();
        v := e.value;
      } else {
        v := savedValue;
      }
    }

    // The loop of FindNextUserEntry.
    method ScanForward(skipping: Option<UserKey>, ghost lo: nat) returns (found: bool)
      requires iter.Ok() && iter.Valid() && iter.at <= lo
      requires Scanning(iter.merged, sequence, lo, iter.at, skipping)
      modifies iter
      ensures iter.Ok() && iter.merged == old(iter.merged)
      ensures found ==> iter.Valid()
      ensures FirstFrom(iter.merged, sequence, lo, if found then iter.at else |iter.merged|)
    {
      hide AtOrAfter, AtOrBefore, Sorted, Yields, Scanning, Skipped;
      var skip := skipping;
      ghost var es := iter.merged;
      while true
        invariant iter.Ok() && iter.Valid() && iter.merged == es
        invariant Scanning(es, sequence, lo, iter.at, skip)
        invariant forall i :: lo <= i < iter.at ==> !Yields(es, sequence, i)
        decreases |es| - iter.at
      {
        var e := iter.Current();
        if StopsScan(skip, e, sequence) {
          ScanStops(es, sequence, lo, iter.at, skip);
          return true;
        }
        Pass(es, sequence, lo, iter.at, skip);
        skip := SkipAfter(skip, e, sequence);
        iter.Next();
        if !iter.Valid() {
          return false;
        }
      }
    }

    method FindNextUserEntry(skipping: Option<UserKey>, ghost lo: nat)
      requires iter.Ok() && iter.Valid() && direction == Forward && iter.at <= lo
      requires Scanning(iter.merged, sequence, lo, iter.at, skipping)
      modifies this`savedKey, this`valid, this`cur, iter
      ensures Ok() && iter.merged == old(iter.merged)
      ensures FirstFrom(iter.merged, sequence, lo, cur)
    {
      valid := ScanForward(skipping, lo);
      savedKey := None;
      cur := if valid then iter.at else |iter.merged|;
    }

    // The entries between the internal iterator and an index cannot be seen.
    ghost predicate BehindIndex(to: nat)
      reads iter
    {
      var p := if iter.Valid() then iter.at + 1 else 0;
      && p <= to <= |iter.merged| && (forall j :: p <= j < to ==> !Live(iter.merged[j], sequence))
      && (p > 0 && to < |iter.merged| ==> iter.merged[p - 1].key.user < iter.merged[to].key.user)
    }

    // The loop of FindPrevUserEntry: the value it ends up saving, if any.
    method ScanBackward(ghost bound: nat) returns (saved: Option<Entry>, ghost m: Option<nat>)
      requires iter.Ok() && iter.Valid() && bound == iter.at + 1
      modifies iter
      ensures iter.Ok() && iter.merged == old(iter.merged)
      ensures m.Some? ==> m.value < |iter.merged|
      ensures saved == Saved(iter.merged, m)
      ensures saved.Some? ==> LastBefore(iter.merged, sequence, bound, m.value) && BehindIndex(m.value)
      ensures saved.None? ==> LastBefore(iter.merged, sequence, bound, |iter.merged|)
    {
      hide AtOrAfter, AtOrBefore, Sorted, LastBefore, Live;
      ghost var es := iter.merged;
      ghost var p := bound;
      saved, m := None, None;
      while true
        invariant iter.Ok() && iter.Valid() && iter.merged == es && p == iter.at + 1 <= bound <= |es|
        invariant ScanningBack(es, sequence, bound, p, m)
        invariant saved == Saved(es, m)
        decreases iter.at
      {
        var e := iter.Current();
        if Live(e, sequence) && saved.Some? && e.key.user < saved.value.key.user {
          break;
        }
        BackOver(es, sequence, bound, p, m);
        m := if Live(e, sequence) then Some(p - 1) else m;
        p := p - 1;
        if Live(e, sequence) {
          saved := if e.key.kind.Deletion? then None else Some(e);
        }
        iter.Prev();
        if !iter.Valid() {
          break;
        }
      }
      BackEnds(es, sequence, bound, p, m);
    }

    method FindPrevUserEntry()
      requires iter.Ok() && direction == Reverse
      modifies this, iter
      ensures Ok() && iter.merged == old(iter.merged)
      ensures LastBefore(iter.merged, sequence, if old(iter.Valid()) then old(iter.at) + 1 else 0, cur)
    {
      var saved: Option<Entry> := None;
      ghost var m: Option<nat> := None;
      if iter.Valid() {
        saved, m := ScanBackward(iter.at + 1);
      }
      if saved.None? {
        valid, savedKey, savedValue, direction := false, None, "", Forward;
        cur := |iter.merged|;
      } else {
        valid, savedKey, savedValue := true, Some(saved.value.key.user), saved.value.value;
        cur := m.value;
      }
    }

    method Next()
      requires Ok() && valid
      modifies this, iter
      ensures Ok() && iter.merged == old(iter.merged)
      ensures FirstFrom(iter.merged, sequence, old(cur) + 1, cur)
    {
      if direction.Reverse? {
        direction := Forward;
        if !iter.Valid() {
          iter.SeekToFirst();
        } else {
          iter.Next();
        }
      } else {
        var e := iter.Current();
        savedKey := Some(e.key.user);
      }
      ScanPast(iter.merged, sequence, iter.at, cur);
      FindNextUserEntry(savedKey, cur + 1);
    }

    method Prev()
      requires Ok() && valid
      modifies this, iter
      ensures Ok() && iter.merged == old(iter.merged)
      ensures LastBefore(iter.merged, sequence, old(cur), cur)
    {
      hide AtOrAfter, AtOrBefore;
      if direction.Forward? {
        var e := iter.Current();
        var k := e.key.user;
        ghost var es := iter.merged;
        while true
          invariant iter.Ok() && iter.Valid() && iter.merged == es && iter.at <= cur
          invariant forall i :: iter.at <= i <= cur ==> es[i].key.user >= k
          decreases iter.at
          modifies iter
        {
          iter.Prev();
          if !iter.Valid() {
            break;
          }
          var p := iter.Current();
          if p.key.user < k {
            break;
          }
        }
        NoStopBetween(es, sequence, if iter.Valid() then iter.at + 1 else 0, cur);
        if !iter.Valid() {
          valid, savedKey, savedValue := false, None, "";
          cur := |es|;
          return;
        }
        direction := Reverse;
      }
      FindPrevUserEntry();
    }

    method Seek(target: UserKey)
      requires Ok()
      modifies this, iter
      ensures Ok() && iter.merged == old(iter.merged)
      ensures valid ==> iter.merged[cur].key.user >= target
      ensures forall i :: 0 <= i < cur && Yields(iter.merged, sequence, i) ==> iter.merged[i].key.user < target
    {
      direction, savedValue, savedKey := Forward, "", None;
      iter.Seek(SeekKey(target, sequence));
      SeekHidesNothing(iter.merged, sequence, target);
      if iter.Valid() {
        FindNextUserEntry(None, iter.at);
      } else {
        valid := false;
        cur := |iter.merged|;
      }
    }

    method SeekToFirst()
      requires Ok()
      modifies this, iter
      ensures Ok() && iter.merged == old(iter.merged)
      ensures FirstFrom(iter.merged, sequence, 0, cur)
    {
      direction, savedValue := Forward, "";
      iter.SeekToFirst();
      ScanFresh(iter.merged, sequence, 0);
      if iter.Valid() {
        FindNextUserEntry(None, 0);
      } else {
        valid := false;
        cur := |iter.merged|;
      }
    }

    method SeekToLast()
      requires Ok()
      modifies this, iter
      ensures Ok() && iter.merged == old(iter.merged)
      ensures LastBefore(iter.merged, sequence, |iter.merged|, cur)
    {
      direction, savedValue := Reverse, "";
      iter.SeekToLast();
      FindPrevUserEntry();
    }
  }

  // Older entries of the current user key, and of nothing else, lie between.
  lemma NoStopBetween(es: seq<Entry>, sequence: SequenceNumber, from: nat, cur: nat)
    requires Sorted(es) && from <= cur < |es| && Yields(es, sequence, cur)
    requires forall i :: from <= i <= cur ==> es[i].key.user >= es[cur].key.user
    ensures forall i :: from <= i < cur ==> !Live(es[i], sequence)
  {
    forall i | from <= i < cur ensures !Live(es[i], sequence) {
      UsersAscend(es, i, cur);
    }
  }

  lemma SeekHidesNothing(es: seq<Entry>, sequence: SequenceNumber, target: UserKey)
    requires Sorted(es)
    ensures forall i :: SeekIndex(es, SeekKey(target, sequence)) <= i < |es| ==> es[i].key.user >= target
    ensures forall i :: 0 <= i < SeekIndex(es, SeekKey(target, sequence)) && Live(es[i], sequence) ==> es[i].key.user < target
    ensures Scanning(es, sequence, SeekIndex(es, SeekKey(target, sequence)), SeekIndex(es, SeekKey(target, sequence)), None)
  {
    var p := SeekIndex(es, SeekKey(target, sequence));
    forall i | p <= i < |es| ensures es[i].key.user >= target {
      UsersAscend(es, p, i);
    }
    ScanFresh(es, sequence, p);
  }
}
