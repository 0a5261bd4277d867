// An iterator over the database enumerates the plain map.
module DbIterMeaning {
  import opened DbFormat
  import opened Tables
  import opened VersionSearch
  import opened DbIter
  import opened LsmState

  // The merged entries that an iterator created now would walk over.
  ghost predicate Merged(db: Db, es: seq<Entry>) {
    Sorted(es) && forall e :: e in es <==> Holds(db, e)
  }

  lemma StopIsNewestHeld(db: Db, h: seq<Entry>, es: seq<Entry>, sequence: SequenceNumber, i: nat)
    requires FromHistory(db, h) && Merged(db, es) && i < |es| && Live(es[i], sequence)
    requires forall j :: 0 <= j < i && es[j].key.user == es[i].key.user ==> !Live(es[j], sequence)
    ensures NewestHeld(db, es[i].key.user, sequence, es[i])
  {
    assert es[i] in es;
    forall o | Holds(db, o) && o.key.user == es[i].key.user && o.key.sequence <= sequence
      ensures o.key.sequence <= es[i].key.sequence
    {
      assert o in es;
      var j :| 0 <= j < |es| && es[j] == o;
      SortedAt(es, i, j);
    }
  }

  // Every stop is a binding of the map at the iterator's sequence number.
  lemma StopsAreInMap(db: Db, h: seq<Entry>, es: seq<Entry>, sequence: SequenceNumber, i: nat)
    requires FromHistory(db, h) && Retained(db, h) && Merged(db, es)
    requires db.OldestReadPoint() <= sequence <= db.lastSequence
    requires i < |es| && Yields(es, sequence, i)
    ensures es[i].key.user in MapAfter(h[..sequence]) && MapAfter(h[..sequence])[es[i].key.user] == es[i].value
  {
    StopIsNewestHeld(db, h, es, sequence, i);
    ReadsAreRight(db, h, es[i].key.user, sequence, Found(es[i].value));
  }

  // The first live entry for the user key, if there is one.
  lemma FirstLive(es: seq<Entry>, user: UserKey, sequence: SequenceNumber) returns (r: Option<nat>)
    ensures match r
            case Some(i) => i < |es| && es[i].key.user == user && Live(es[i], sequence)
                            && forall j :: 0 <= j < i && es[j].key.user == user ==> !Live(es[j], sequence)
            case None => forall j :: 0 <= j < |es| && es[j].key.user == user ==> !Live(es[j], sequence)
  {
    for i := 0 to |es|
      invariant forall j :: 0 <= j < i && es[j].key.user == user ==> !Live(es[j], sequence)
    {
      if es[i].key.user == user && Live(es[i], sequence) {
        return Some(i);
      }
    }
    return None;
  }

  // Every binding of the map has its stop.
  lemma MapIsStoppedAt(db: Db, h: seq<Entry>, es: seq<Entry>, sequence: SequenceNumber, user: UserKey)
    requires FromHistory(db, h) && Retained(db, h) && Merged(db, es)
    requires db.OldestReadPoint() <= sequence <= db.lastSequence
    requires user in MapAfter(h[..sequence])
    ensures exists i :: 0 <= i < |es| && Yields(es, sequence, i) && es[i].key.user == user
  {
    var r := FirstLive(es, user, sequence);
    if r.None? {
      forall o | Holds(db, o) && o.key.user == user ensures o.key.sequence > sequence {
        assert o in es;
      }
      ReadsAreRight(db, h, user, sequence, Absent);
    } else {
      StopIsNewestHeld(db, h, es, sequence, r.value);
      ReadsAreRight(db, h, user, sequence, Outcome(es[r.value]));
    }
  }

  // Stops come in strictly increasing user-key order.
  lemma StopsAscend(es: seq<Entry>, sequence: SequenceNumber, i: nat, j: nat)
    requires Sorted(es) && i < j < |es| && Yields(es, sequence, i) && Yields(es, sequence, j)
    ensures es[i].key.user < es[j].key.user
  {
    SortedAt(es, i, j);
  }
}
