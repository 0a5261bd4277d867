// What a snapshot is for: as long as it is held, a read at it finds the map as it was when
// the snapshot was taken.
module LsmSnapshots {
  import opened DbFormat
  import opened LsmState
  import opened LsmSteps
  import opened LsmRuns

  // Where a snapshot is in the list after a step, unless the step drops it.
  function PlaceAfter(place: nat, a: Action): Option<nat> {
    if !a.DropSnapshot? || a.index > place then Some(place)
    else if a.index == place then None
    else Some(place - 1)
  }

  function PlaceIn(place: nat, actions: seq<Action>): Option<nat> {
    if actions == [] then Some(place)
    else
      var before := PlaceIn(place, actions[..|actions| - 1]);
      if before.None? then None else PlaceAfter(before.value, actions[|actions| - 1])
  }

  lemma PlaceAfterStep(db: Db, a: Action, place: nat)
    requires Permitted(db, a) && place < |db.snapshots| && PlaceAfter(place, a).Some?
    ensures PlaceAfter(place, a).value < |Next(db, a).snapshots|
    ensures Next(db, a).snapshots[PlaceAfter(place, a).value] == db.snapshots[place]
  {
  }

  lemma {:induction false} PrefixRuns(actions: seq<Action>, n: nat)
    requires Run(actions) && n <= |actions|
    ensures Run(actions[..n])
  {
    hide Permitted, After;
    if n < |actions| {
      PrefixRuns(actions[..|actions| - 1], n);
      assert actions[..|actions| - 1][..n] == actions[..n];
    } else {
      assert actions[..n] == actions;
    }
  }

  // From the moment it is taken until it is dropped, the snapshot is in the list with the
  // sequence number of that moment.
  lemma {:induction false} SnapshotIsHeld(before: seq<Action>, rest: seq<Action>)
    requires Run(before + [GetSnapshot] + rest) && Run(before)
    requires PlaceIn(|After(before).snapshots|, rest).Some?
    ensures var db, place := After(before + [GetSnapshot] + rest), PlaceIn(|After(before).snapshots|, rest).value;
            place < |db.snapshots| && db.snapshots[place] == After(before).lastSequence
  {
    hide Permitted, Next;
    var all := before + [GetSnapshot] + rest;
    if rest == [] {
      assert all == before + [GetSnapshot] && all[..|all| - 1] == before;
      TakenLast(After(before));
    } else {
      assert all[..|all| - 1] == before + [GetSnapshot] + rest[..|rest| - 1];
      SnapshotIsHeld(before, rest[..|rest| - 1]);
      PlaceAfterStep(After(all[..|all| - 1]), rest[|rest| - 1], PlaceIn(|After(before).snapshots|, rest[..|rest| - 1]).value);
    }
  }

  lemma TakenLast(db: Db)
    ensures Permitted(db, GetSnapshot) && Next(db, GetSnapshot).snapshots == db.snapshots + [db.lastSequence]
  {
  }

  lemma {:induction false} OpsOfPrefix(actions: seq<Action>, n: nat)
    requires n <= |actions|
    ensures OpsOf(actions[..n]) <= OpsOf(actions)
  {
    if n < |actions| {
      OpsOfPrefix(actions[..|actions| - 1], n);
      assert actions[..|actions| - 1][..n] == actions[..n];
    } else {
      assert actions[..n] == actions;
    }
  }

  // Whatever was written, flushed, compacted or released in the meantime, a read at the
  // snapshot finds what the operations made before it was taken mean.
  lemma SnapshotReadsItsMap(before: seq<Action>, rest: seq<Action>, user: UserKey, r: Lookup)
    requires SafeRun(before + [GetSnapshot] + rest) && Run(before)
    requires PlaceIn(|After(before).snapshots|, rest).Some?
    requires Answer(After(before + [GetSnapshot] + rest), user, After(before).lastSequence, r)
    ensures Agrees(ApplyAll(map[], OpsOf(before)), user, r)
  {
    hide Answer, Agrees, ApplyAll, OpsOf, PlaceIn, SafeRun;
    var all := before + [GetSnapshot] + rest;
    SafeIsRun(all);
    SnapshotIsHeld(before, rest);
    SafeRunsReadRight(all, user, After(before).lastSequence, r);
    assert all[..|before|] == before;
    OpsOfPrefix(all, |before|);
    HistoryIsOps(before);
    assert OpsOf(all)[..|OpsOf(before)|] == OpsOf(before);
  }

  lemma SafeIsRun(actions: seq<Action>)
    requires SafeRun(actions)
    ensures Run(actions)
  {
  }
}
