// Which entries a compaction drops (DBImpl::DoCompactionWork in db/db_impl.cc).
module DropRules {
  import opened DbFormat
  import opened Tables
  import opened VersionSearch

  // No file below the output level has the user key in its range.
  predicate BaseLevel(levels: Levels, level: nat, user: UserKey) {
    forall l, f :: level + 2 <= l < NUM_LEVELS && f in levels[l] ==> !RangeHas(f, user)
  }

  // Rule (A): a newer entry for the same user key is already visible to every reader.
  predicate Hidden(es: seq<Entry>, i: nat, smallestSnapshot: SequenceNumber)
    requires i < |es|
  {
    i > 0 && es[i - 1].key.user == es[i].key.user && es[i - 1].key.sequence <= smallestSnapshot
  }

  // A deletion that every reader sees and that has nothing left to delete.
  predicate Obsolete(es: seq<Entry>, i: nat, smallestSnapshot: SequenceNumber, levels: Levels, level: nat)
    requires i < |es|
  {
    es[i].key.kind.Deletion? && es[i].key.sequence <= smallestSnapshot && BaseLevel(levels, level, es[i].key.user)
  }

  predicate Kept(es: seq<Entry>, i: nat, smallestSnapshot: SequenceNumber, levels: Levels, level: nat)
    requires i < |es|
  {
    !Hidden(es, i, smallestSnapshot) && !Obsolete(es, i, smallestSnapshot, levels, level)
  }

  function Survivors(es: seq<Entry>, smallestSnapshot: SequenceNumber, levels: Levels, level: nat): (kept: seq<Entry>)
    ensures forall e :: e in kept ==> e in es
  {
    if es == [] then []
    else
      var last := |es| - 1;
      assert es == es[..last] + [es[last]];
      Survivors(es[..last], smallestSnapshot, levels, level)
      + (if Kept(es, last, smallestSnapshot, levels, level) then [es[last]] else [])
  }

  lemma {:induction false} SurvivorsSorted(es: seq<Entry>, smallestSnapshot: SequenceNumber, levels: Levels, level: nat)
    requires Sorted(es)
    ensures Sorted(Survivors(es, smallestSnapshot, levels, level))
  {
    if es != [] {
      var front := es[..|es| - 1];
      SurvivorsSorted(front, smallestSnapshot, levels, level);
      var rest := Survivors(front, smallestSnapshot, levels, level);
      assert forall i :: 0 <= i < |rest| ==> rest[i] in front;
    }
  }

  lemma KeptInPrefix(es: seq<Entry>, n: nat, i: nat, smallestSnapshot: SequenceNumber, levels: Levels, level: nat)
    requires i < n <= |es|
    ensures Kept(es[..n], i, smallestSnapshot, levels, level) == Kept(es, i, smallestSnapshot, levels, level)
  {
  }

  // An entry survives exactly when neither rule drops it.
  lemma {:induction false} SurvivorsAreKept(es: seq<Entry>, i: nat, smallestSnapshot: SequenceNumber, levels: Levels, level: nat)
    requires Sorted(es) && i < |es|
    ensures es[i] in Survivors(es, smallestSnapshot, levels, level) <==> Kept(es, i, smallestSnapshot, levels, level)
  {
    var last := |es| - 1;
    var front := es[..last];
    if i == last {
      assert forall j :: 0 <= j < last ==> Less(es[j].key, es[last].key);
      assert es[last] !in front;
    } else {
      SurvivorsAreKept(front, i, smallestSnapshot, levels, level);
      KeptInPrefix(es, last, i, smallestSnapshot, levels, level);
      assert Less(es[i].key, es[last].key);
      assert front[i] == es[i];
    }
  }

  // Once an entry is at or below the smallest snapshot, every older entry for its user
  // key is dropped, whether or not the entry itself was.
  lemma OlderAreHidden(es: seq<Entry>, i: nat, j: nat, smallestSnapshot: SequenceNumber)
    requires Sorted(es) && i < j < |es|
    requires es[i].key.user == es[j].key.user && es[i].key.sequence <= smallestSnapshot
    ensures Hidden(es, j, smallestSnapshot)
  {
    assert Less(es[j - 1].key, es[j].key);
    if i < j - 1 { assert Less(es[i].key, es[j - 1].key); }
  }

  // Without snapshots every entry is at or below the smallest snapshot, and at most one
  // entry per user key survives.
  lemma OneSurvivorPerKey(es: seq<Entry>, smallestSnapshot: SequenceNumber, levels: Levels, level: nat, x: Entry, y: Entry)
    requires Sorted(es)
    requires forall e :: e in es ==> e.key.sequence <= smallestSnapshot
    requires x in Survivors(es, smallestSnapshot, levels, level) && y in Survivors(es, smallestSnapshot, levels, level)
    requires x.key.user == y.key.user
    ensures x == y
  {
    var i :| 0 <= i < |es| && es[i] == x;
    var j :| 0 <= j < |es| && es[j] == y;
    SurvivorsAreKept(es, i, smallestSnapshot, levels, level);
    SurvivorsAreKept(es, j, smallestSnapshot, levels, level);
    if i < j { OlderAreHidden(es, i, j, smallestSnapshot); }
    if j < i { OlderAreHidden(es, j, i, smallestSnapshot); }
  }
}
