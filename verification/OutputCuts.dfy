// Where a compaction closes its output files: once a file is big enough, and before a key
// by which it has passed too much data two levels down (Compaction::ShouldStopBefore in
// db/version_set.cc).
module OutputCuts {
  import opened DbFormat
  import opened Tables
  import opened VersionSearch

  // The size of the grandparents that end at or after the first key and before the second.
  function PassedBetween(grandparents: seq<File>, from: InternalKey, to: InternalKey): nat {
    if grandparents == [] then 0
    else
      var last := |grandparents| - 1;
      PassedBetween(grandparents[..last], from, to)
      + if !Less(grandparents[last].largest, from) && Less(grandparents[last].largest, to) then grandparents[last].size else 0
  }

  // The input key since which passed grandparents count: the last one that an output had
  // to be closed before, or the first key of all.
  function CountedFrom(grandparents: seq<File>, es: seq<Entry>, i: nat): (j: nat)
    requires 0 < i <= |es|
    ensures j < i
    decreases i, 0
  {
    if i == 1 || StopsBefore(grandparents, es, i - 1) then i - 1 else CountedFrom(grandparents, es, i - 1)
  }

  // The output has to be closed before the i-th input key.
  predicate StopsBefore(grandparents: seq<File>, es: seq<Entry>, i: nat)
    requires i < |es|
    decreases i, 1
  {
    i > 0 && PassedBetween(grandparents, es[CountedFrom(grandparents, es, i)].key, es[i].key) > MAX_GRANDPARENT_OVERLAP_BYTES
  }

  // An output has to be closed before some key after the one and not after the other.
  ghost predicate StopIn(grandparents: seq<File>, es: seq<Entry>, after: InternalKey, upTo: InternalKey) {
    exists j :: 0 <= j < |es| && StopsBefore(grandparents, es, j) && Less(after, es[j].key) && !Less(upTo, es[j].key)
  }

  // The outputs are closed where they have to be and nowhere else: a file as soon as it is
  // big enough, or before a key that it must not pass.
  ghost predicate WellCut(outputs: seq<File>, es: seq<Entry>, grandparents: seq<File>,
                          sizeSoFar: seq<Entry> -> nat, limit: nat, fileSize: seq<Entry> -> nat)
  {
    && (forall o :: o in outputs ==>
          && o.size == fileSize(o.entries)
          && (forall n :: 0 < n < |o.entries| ==> sizeSoFar(o.entries[..n]) < limit)
          && !StopIn(grandparents, es, o.smallest, o.largest))
    && (forall i :: 0 < i < |outputs| ==>
          || sizeSoFar(outputs[i - 1].entries) >= limit
          || StopIn(grandparents, es, outputs[i - 1].largest, outputs[i].smallest))
  }

  // ---------- Counting ----------

  // Exactly the first n files end before the key.
  predicate PassedUpTo(files: seq<File>, n: nat, key: InternalKey) {
    forall i :: 0 <= i < |files| ==> (Less(files[i].largest, key) <==> i < n)
  }

  lemma OneMorePassed(files: seq<File>, n: nat, from: InternalKey, key: InternalKey)
    requires n < |files| && !Less(files[n].largest, from) && Less(files[n].largest, key)
    ensures PassedBetween(files[..n + 1], from, key) == PassedBetween(files[..n], from, key) + files[n].size
  {
    assert files[..n + 1][..n] == files[..n];
  }

  // Files that end later than a key are not counted before it.
  lemma {:induction false} OnlyPassedCount(files: seq<File>, n: nat, from: InternalKey, key: InternalKey)
    requires n <= |files| && forall i :: n <= i < |files| ==> !Less(files[i].largest, key)
    ensures PassedBetween(files, from, key) == PassedBetween(files[..n], from, key)
  {
    if n == |files| {
      assert files[..n] == files;
    } else {
      var last := |files| - 1;
      OnlyPassedCount(files[..last], n, from, key);
      assert files[..last][..n] == files[..n];
    }
  }

  // A file that is not passed stands before no passed one.
  lemma NothingFurtherPassed(files: seq<File>, n: nat, from: InternalKey, key: InternalKey)
    requires Disjoint(files) && (forall f :: f in files ==> WellFormed(f)) && n <= |files|
    requires n == |files| || !Less(files[n].largest, key)
    requires forall i :: 0 <= i < n ==> Less(files[i].largest, key)
    ensures PassedUpTo(files, n, key)
    ensures PassedBetween(files, from, key) == PassedBetween(files[..n], from, key)
  {
    hide PassedBetween, WellFormed;
    if n < |files| { LargestIncreasing(files, n); }
    OnlyPassedCount(files, n, from, key);
  }

  lemma {:induction false} SamePassed(files: seq<File>, from: InternalKey, to: InternalKey, later: InternalKey)
    requires forall f :: f in files ==> Less(f.largest, to) && Less(f.largest, later)
    ensures PassedBetween(files, from, to) == PassedBetween(files, from, later)
  {
    if files != [] {
      var last := |files| - 1;
      assert files[last] in files && forall f :: f in files[..last] ==> f in files;
      SamePassed(files[..last], from, to, later);
    }
  }

  // The count for the next key starts from what was counted for the last one.
  lemma CountContinues(files: seq<File>, es: seq<Entry>, i: nat, n: nat)
    requires 0 < i < |es| && Sorted(es) && n <= |files| && PassedUpTo(files, n, es[i - 1].key)
    ensures var from := es[CountedFrom(files, es, i)].key;
            && PassedBetween(files, from, es[i - 1].key) == PassedBetween(files[..n], from, es[i].key)
            && (forall k :: 0 <= k < n ==> Less(files[k].largest, es[i].key))
            && (forall k :: n <= k < |files| ==> !Less(files[k].largest, from))
  {
    hide StopsBefore;
    var c := CountedFrom(files, es, i);
    if c < i - 1 { SortedAt(es, c, i - 1); }
    SortedAt(es, i - 1, i);
    OnlyPassedCount(files, n, es[c].key, es[i - 1].key);
    SamePassed(files[..n], es[c].key, es[i - 1].key, es[i].key);
  }

  // Too many bytes are a stop, and the count starts again.
  lemma CountDecides(files: seq<File>, es: seq<Entry>, i: nat, bytes: nat)
    requires i < |es|
    requires bytes == if i == 0 then 0 else PassedBetween(files, es[CountedFrom(files, es, i)].key, es[i].key)
    ensures StopsBefore(files, es, i) <==> bytes > MAX_GRANDPARENT_OVERLAP_BYTES
    ensures PassedBetween(files, es[CountedFrom(files, es, i + 1)].key, es[i].key)
         == if bytes > MAX_GRANDPARENT_OVERLAP_BYTES then 0 else bytes
  {
    EmptySpan(files, es[i].key, es[i].key);
  }

  // ---------- What the cuts are for ----------

  lemma {:induction false} PassedGrows(grandparents: seq<File>, from: InternalKey, later: InternalKey, to: InternalKey)
    requires !Less(later, from)
    ensures PassedBetween(grandparents, later, to) <= PassedBetween(grandparents, from, to)
  {
    if grandparents != [] {
      var last := |grandparents| - 1;
      PassedGrows(grandparents[..last], from, later, to);
      var key := grandparents[last].largest;
      if Less(key, from) { assert Less(key, later); }
    }
  }

  // Without a stop in between, the count goes on from the same key.
  lemma {:induction false} CountGoesOn(grandparents: seq<File>, es: seq<Entry>, i: nat, j: nat)
    requires i < j < |es| && forall k :: i < k < j ==> !StopsBefore(grandparents, es, k)
    ensures CountedFrom(grandparents, es, j) <= i
  {
    if i + 1 < j { CountGoesOn(grandparents, es, i, j - 1); }
  }

  // From a stop, or the first key, to a later stop more than the limit is passed: outputs
  // are not closed for less.
  lemma StopsAreNeeded(grandparents: seq<File>, es: seq<Entry>, i: nat, j: nat)
    requires Sorted(es) && i < j < |es| && StopsBefore(grandparents, es, j) && (i == 0 || StopsBefore(grandparents, es, i))
    ensures PassedBetween(grandparents, es[i].key, es[j].key) > MAX_GRANDPARENT_OVERLAP_BYTES
  {
    var c := CountedFrom(grandparents, es, j);
    CountStartsLater(grandparents, es, i, j);
    if i < c { SortedAt(es, i, c); }
    PassedGrows(grandparents, es[i].key, es[c].key, es[j].key);
  }

  lemma {:induction false} CountStartsLater(grandparents: seq<File>, es: seq<Entry>, i: nat, j: nat)
    requires i < j <= |es| && (i == 0 || StopsBefore(grandparents, es, i))
    ensures i <= CountedFrom(grandparents, es, j)
  {
    if i + 1 < j { CountStartsLater(grandparents, es, i, j - 1); }
  }

  // Without a stop on the way from one input key to another, little is passed.
  lemma LittleIsPassed(es: seq<Entry>, grandparents: seq<File>, i: nat, j: nat)
    requires Sorted(es) && i <= j < |es| && forall k :: i < k <= j ==> !StopsBefore(grandparents, es, k)
    ensures PassedBetween(grandparents, es[i].key, es[j].key) <= MAX_GRANDPARENT_OVERLAP_BYTES
  {
    if i < j {
      assert !StopsBefore(grandparents, es, j);
      CountGoesOn(grandparents, es, i, j);
      var c := CountedFrom(grandparents, es, j);
      if c < i { SortedAt(es, c, i); }
      PassedGrows(grandparents, es[c].key, es[i].key, es[j].key);
    } else {
      EmptySpan(grandparents, es[i].key, es[j].key);
    }
  }

  lemma NoStopOnTheWay(es: seq<Entry>, grandparents: seq<File>, i: nat, j: nat)
    requires Sorted(es) && i < |es| && j < |es| && !StopIn(grandparents, es, es[i].key, es[j].key)
    ensures forall k :: i < k <= j ==> !StopsBefore(grandparents, es, k)
  {
    hide StopsBefore, Sorted;
    forall k | i < k <= j ensures !StopsBefore(grandparents, es, k) {
      SortedAt(es, i, k);
      SortedAt(es, k, j);
    }
  }

  // No output passes more than the limit of data two levels down.
  lemma OverlapIsBounded(outputs: seq<File>, es: seq<Entry>, grandparents: seq<File>,
                         sizeSoFar: seq<Entry> -> nat, limit: nat, fileSize: seq<Entry> -> nat, o: File)
    requires Sorted(es) && WellCut(outputs, es, grandparents, sizeSoFar, limit, fileSize)
    requires o in outputs && WellFormed(o) && forall e :: e in o.entries ==> e in es
    ensures PassedBetween(grandparents, o.smallest, o.largest) <= MAX_GRANDPARENT_OVERLAP_BYTES
  {
    hide WellFormed, StopIn, StopsBefore, PassedBetween, Sorted;
    EndsOfFile(o);
    assert o.entries[0] in o.entries && o.entries[|o.entries| - 1] in o.entries;
    var i :| 0 <= i < |es| && es[i] == o.entries[0];
    var j :| 0 <= j < |es| && es[j] == o.entries[|o.entries| - 1];
    if i <= j {
      NoStopOnTheWay(es, grandparents, i, j);
      LittleIsPassed(es, grandparents, i, j);
    } else {
      SortedAt(es, j, i);
      EmptySpan(grandparents, es[i].key, es[j].key);
    }
  }

  lemma EndsOfFile(o: File)
    requires WellFormed(o)
    ensures o.entries != [] && o.smallest == o.entries[0].key && o.largest == o.entries[|o.entries| - 1].key
  {
  }

  lemma {:induction false} EmptySpan(grandparents: seq<File>, from: InternalKey, to: InternalKey)
    requires !Less(from, to)
    ensures PassedBetween(grandparents, from, to) == 0
  {
    if grandparents != [] { EmptySpan(grandparents[..|grandparents| - 1], from, to); }
  }

  // ---------- What the loop carries ----------

  // What is known of the cuts once the stops before the first keys have been decided.
  ghost predicate Cutting(outputs: seq<File>, builder: seq<Entry>, es: seq<Entry>, asked: nat, grandparents: seq<File>,
                          sizeSoFar: seq<Entry> -> nat, limit: nat, fileSize: seq<Entry> -> nat)
  {
    && asked <= |es| && Sorted(es)
    && WellCut(outputs, es, grandparents, sizeSoFar, limit, fileSize)
    && if builder == [] then outputs == [] || ClosedRightly(outputs[|outputs| - 1], es, asked, grandparents, sizeSoFar, limit)
       else Open(outputs, builder, es, asked, grandparents, sizeSoFar, limit)
  }

  ghost predicate ClosedRightly(last: File, es: seq<Entry>, asked: nat, grandparents: seq<File>, sizeSoFar: seq<Entry> -> nat, limit: nat)
    requires asked <= |es|
  {
    || sizeSoFar(last.entries) >= limit
    || exists j :: 0 <= j < asked && StopsBefore(grandparents, es, j) && Less(last.largest, es[j].key)
  }

  ghost predicate Open(outputs: seq<File>, builder: seq<Entry>, es: seq<Entry>, asked: nat, grandparents: seq<File>,
                       sizeSoFar: seq<Entry> -> nat, limit: nat)
    requires asked <= |es| && builder != []
  {
    && asked > 0 && !Less(es[asked - 1].key, builder[|builder| - 1].key)
    && (forall n :: 0 < n <= |builder| ==> sizeSoFar(builder[..n]) < limit)
    && (forall j :: 0 <= j < asked && StopsBefore(grandparents, es, j) ==> !Less(builder[0].key, es[j].key))
    && (outputs == [] || sizeSoFar(outputs[|outputs| - 1].entries) >= limit
        || StopIn(grandparents, es, outputs[|outputs| - 1].largest, builder[0].key))
  }

  // Keys not yet asked about come after everything in the open file.
  lemma LaterKeys(builder: seq<Entry>, es: seq<Entry>, asked: nat, j: nat)
    requires Sorted(es) && 0 < asked <= j < |es| && builder != []
    requires !Less(es[asked - 1].key, builder[|builder| - 1].key)
    ensures Less(builder[|builder| - 1].key, es[j].key)
  {
    SortedAt(es, asked - 1, j);
  }

  // Closing the open file, for whatever reason.
  lemma ClosingIsWellCut(outputs: seq<File>, builder: seq<Entry>, es: seq<Entry>, asked: nat, grandparents: seq<File>,
                         sizeSoFar: seq<Entry> -> nat, limit: nat, fileSize: seq<Entry> -> nat, o: File)
    requires asked <= |es| && Sorted(es) && builder != []
    requires WellCut(outputs, es, grandparents, sizeSoFar, limit, fileSize)
    requires asked > 0 && !Less(es[asked - 1].key, builder[|builder| - 1].key)
    requires forall n :: 0 < n < |builder| ==> sizeSoFar(builder[..n]) < limit
    requires forall j :: 0 <= j < asked && StopsBefore(grandparents, es, j) ==> !Less(builder[0].key, es[j].key)
    requires outputs == [] || sizeSoFar(outputs[|outputs| - 1].entries) >= limit
             || StopIn(grandparents, es, outputs[|outputs| - 1].largest, builder[0].key)
    requires o == MakeFile(o.number, fileSize(builder), builder)
    ensures WellCut(outputs + [o], es, grandparents, sizeSoFar, limit, fileSize)
  {
    hide StopsBefore;
    var closed := outputs + [o];
    if StopIn(grandparents, es, o.smallest, o.largest) {
      var j :| 0 <= j < |es| && StopsBefore(grandparents, es, j) && Less(o.smallest, es[j].key) && !Less(o.largest, es[j].key);
      if asked <= j { LaterKeys(builder, es, asked, j); }
    }
    forall i | 0 < i < |closed|
      ensures sizeSoFar(closed[i - 1].entries) >= limit || StopIn(grandparents, es, closed[i - 1].largest, closed[i].smallest)
    {
      if i < |outputs| { assert closed[i] == outputs[i] && closed[i - 1] == outputs[i - 1]; }
    }
  }

  // A file is closed before a key that it must not pass.
  lemma StopCloses(outputs: seq<File>, builder: seq<Entry>, es: seq<Entry>, asked: nat, grandparents: seq<File>,
                   sizeSoFar: seq<Entry> -> nat, limit: nat, fileSize: seq<Entry> -> nat, o: File)
    requires Cutting(outputs, builder, es, asked, grandparents, sizeSoFar, limit, fileSize)
    requires asked < |es| && StopsBefore(grandparents, es, asked) && builder != []
    requires o == MakeFile(o.number, fileSize(builder), builder)
    ensures Cutting(outputs + [o], [], es, asked + 1, grandparents, sizeSoFar, limit, fileSize)
  {
    hide WellCut, StopsBefore, StopIn;
    ClosingIsWellCut(outputs, builder, es, asked, grandparents, sizeSoFar, limit, fileSize, o);
    LaterKeys(builder, es, asked, asked);
    var closed := outputs + [o];
    assert closed[|closed| - 1] == o;
  }

  // Nothing has to be closed: no stop, or no open file.
  lemma GoesOn(outputs: seq<File>, builder: seq<Entry>, es: seq<Entry>, asked: nat, grandparents: seq<File>,
               sizeSoFar: seq<Entry> -> nat, limit: nat, fileSize: seq<Entry> -> nat)
    requires Cutting(outputs, builder, es, asked, grandparents, sizeSoFar, limit, fileSize)
    requires asked < |es| && (StopsBefore(grandparents, es, asked) ==> builder == [])
    ensures Cutting(outputs, builder, es, asked + 1, grandparents, sizeSoFar, limit, fileSize)
  {
    hide WellCut, StopsBefore, StopIn;
    if builder != [] { LaterKeys(builder, es, asked, asked); }
  }

  // One more entry; the file stays open or is closed because it is big enough.
  lemma EntryAdded(outputs: seq<File>, builder: seq<Entry>, es: seq<Entry>, asked: nat, grandparents: seq<File>,
                   sizeSoFar: seq<Entry> -> nat, limit: nat, fileSize: seq<Entry> -> nat, o: File)
    requires Cutting(outputs, builder, es, asked, grandparents, sizeSoFar, limit, fileSize) && asked > 0
    requires o == MakeFile(o.number, fileSize(builder + [es[asked - 1]]), builder + [es[asked - 1]])
    ensures if sizeSoFar(o.entries) < limit then Cutting(outputs, o.entries, es, asked, grandparents, sizeSoFar, limit, fileSize)
            else Cutting(outputs + [o], [], es, asked, grandparents, sizeSoFar, limit, fileSize)
  {
    hide WellCut, StopsBefore;
    var more := builder + [es[asked - 1]];
    forall n | 0 < n < |more| ensures sizeSoFar(more[..n]) < limit { assert more[..n] == builder[..n]; }
    forall j | 0 <= j < asked && StopsBefore(grandparents, es, j) ensures !Less(more[0].key, es[j].key) {
      if builder == [] { SortedAt(es, j, asked - 1); }
    }
    assert more[..|more|] == more;
    if sizeSoFar(more) >= limit {
      ClosingIsWellCut(outputs, more, es, asked, grandparents, sizeSoFar, limit, fileSize, o);
      var closed := outputs + [o];
      assert closed[|closed| - 1] == o;
    }
  }

  lemma LastIsClosed(outputs: seq<File>, builder: seq<Entry>, es: seq<Entry>, asked: nat, grandparents: seq<File>,
                     sizeSoFar: seq<Entry> -> nat, limit: nat, fileSize: seq<Entry> -> nat, o: File)
    requires Cutting(outputs, builder, es, asked, grandparents, sizeSoFar, limit, fileSize) && builder != []
    requires o == MakeFile(o.number, fileSize(builder), builder)
    ensures WellCut(outputs + [o], es, grandparents, sizeSoFar, limit, fileSize)
  {
    hide WellCut, StopsBefore, StopIn;
    ClosingIsWellCut(outputs, builder, es, asked, grandparents, sizeSoFar, limit, fileSize, o);
  }
}
