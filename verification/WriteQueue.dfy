// Group commit (DBImpl::Write and DBImpl::BuildBatchGroup in db/db_impl.cc): writers queue
// up, the one at the front logs and applies a group for all of its members.
module WriteQueue {
  import opened DbFormat
  import opened Coding
  import opened WriteBatch
  import opened Recovery
  import opened LogFormat
  import opened LogReplay

  // A NULL batch asks for a memtable switch only.
  datatype Writer = Writer(id: nat, batch: Option<seq<Op>>, sync: bool)

  // How a writer was answered, and whether the log was synced for it.
  datatype Ack = Ack(writer: Writer, ok: bool, synced: bool)

  // The group that the writer at the front is logging, with the mutex released.
  datatype Leading = Leading(n: nat, group: Group)

  datatype State = State(arrived: seq<Writer>, done: seq<Ack>, waiting: seq<Writer>, leading: Option<Leading>,
                         lastSequence: nat, logged: seq<Group>, applied: seq<Group>,
                         // How many of the logged groups the last sync has made durable.
                         durable: nat,
                         bgError: bool, failed: bool)

  function OpsIn(writers: seq<Writer>): seq<Op> {
    if writers == [] then []
    else
      var w := writers[|writers| - 1];
      OpsIn(writers[..|writers| - 1]) + (if w.batch.Some? then w.batch.value else [])
  }

  lemma OpsInAppend(writers: seq<Writer>, w: Writer)
    ensures OpsIn(writers + [w]) == OpsIn(writers) + (if w.batch.Some? then w.batch.value else [])
  {
    assert (writers + [w])[..|writers|] == writers;
  }

  // ---------- Building a group ----------

  function ByteSize(ops: seq<Op>): nat {
    |Rep(0, ops)|
  }

  function SizeOf(writers: seq<Writer>): nat {
    if writers == [] then 0
    else
      var w := writers[|writers| - 1];
      SizeOf(writers[..|writers| - 1]) + (if w.batch.Some? then ByteSize(w.batch.value) else 0)
  }

  // If the first write is small, the group stays small.
  function MaxSize(first: seq<Op>): nat {
    if ByteSize(first) <= 0x20000 then ByteSize(first) + 0x20000 else 0x100000
  }

  // The i-th writer may be part of the group with all writers before it.
  predicate Joins(writers: seq<Writer>, i: nat)
    requires i < |writers| && writers[0].batch.Some?
  {
    && (writers[i].sync ==> writers[0].sync)
    && (writers[i].batch.Some? ==> SizeOf(writers[..i + 1]) <= MaxSize(writers[0].batch.value))
  }

  predicate Forms(writers: seq<Writer>, n: nat, ops: seq<Op>)
    requires writers != [] && writers[0].batch.Some?
  {
    && 1 <= n <= |writers| && ops == OpsIn(writers[..n])
    && (forall i :: 1 <= i < n ==> Joins(writers, i))
    && (n < |writers| ==> !Joins(writers, n))
  }

  method BuildBatchGroup(writers: seq<Writer>) returns (n: nat, ops: seq<Op>)
    requires writers != [] && writers[0].batch.Some?
    ensures Forms(writers, n, ops)
  {
    hide ByteSize, MaxSize, OpsIn, SizeOf;
    var first := writers[0];
    ops := first.batch.value;
    var size := ByteSize(ops);
    var maxSize := MaxSize(ops);
    n := 1;
    FirstAlone(first);
    assert writers[..1] == [first];
    while n < |writers|
      invariant 1 <= n <= |writers| && ops == OpsIn(writers[..n]) && size == SizeOf(writers[..n])
      invariant forall i :: 1 <= i < n ==> Joins(writers, i)
    {
      var w := writers[n];
      assert writers[..n + 1] == writers[..n] + [w];
      OpsInAppend(writers[..n], w);
      SizeOfAppend(writers[..n], w);
      if w.sync && !first.sync {
        break;
      }
      if w.batch.Some? {
        size := size + ByteSize(w.batch.value);
        if size > maxSize {
          break;
        }
        ops := ops + w.batch.value;
      }
      n := n + 1;
    }
  }

  lemma FirstAlone(first: Writer)
    requires first.batch.Some?
    ensures OpsIn([first]) == first.batch.value && SizeOf([first]) == ByteSize(first.batch.value)
  {
    hide ByteSize;
    OpsInAppend([], first);
    SizeOfAppend([], first);
    assert [] + [first] == [first] && [] + first.batch.value == first.batch.value;
  }

  lemma SizeOfAppend(writers: seq<Writer>, w: Writer)
    ensures SizeOf(writers + [w]) == SizeOf(writers) + (if w.batch.Some? then ByteSize(w.batch.value) else 0)
  {
    assert (writers + [w])[..|writers|] == writers;
  }

  // ---------- The steps ----------

  datatype Outcome = Succeeds | LogFails | SyncFails

  datatype Step =
    | Arrive(writer: Writer)
    // The writer at the front has no batch, or there was no room for its write.
    | Skip(ok: bool)
    | Lead(n: nat, ops: seq<Op>)
    | Commit(outcome: Outcome)
    // A flush or a compaction fails, at any time.
    | RecordBackgroundError

  predicate SmallBatch(ops: seq<Op>) {
    AllSmall(ops) && |ops| < TWO_32 / 2
  }

  predicate Permitted(s: State, step: Step) {
    match step
    case Arrive(w) => w.batch.Some? ==> SmallBatch(w.batch.value)
    case Skip(ok) => s.leading.None? && s.waiting != [] && (ok ==> s.waiting[0].batch.None? && !s.bgError)
    case Lead(n, ops) =>
      && s.leading.None? && s.waiting != [] && s.waiting[0].batch.Some? && !s.bgError
      && Forms(s.waiting, n, ops) && s.lastSequence + |ops| <= MAX_SEQUENCE
    case Commit(outcome) =>
      s.leading.Some? && s.leading.value.n <= |s.waiting| && s.waiting != [] && (outcome.SyncFails? ==> s.waiting[0].sync)
    case RecordBackgroundError => true
  }

  function AcksFor(writers: seq<Writer>, ok: bool, synced: bool): (acks: seq<Ack>)
    ensures |acks| == |writers|
  {
    seq(|writers|, i requires 0 <= i < |writers| => Ack(writers[i], ok, synced))
  }

  // The loop that pops the group from the queue and wakes its members.
  method PopGroup(waiting: seq<Writer>, n: nat, ok: bool, synced: bool) returns (acks: seq<Ack>, rest: seq<Writer>)
    requires n <= |waiting|
    ensures acks == AcksFor(waiting[..n], ok, synced) && rest == waiting[n..]
  {
    acks, rest := [], waiting;
    while |acks| < n
      invariant |acks| <= n && rest == waiting[|acks|..]
      invariant acks == AcksFor(waiting[..|acks|], ok, synced)
    {
      acks, rest := acks + [Ack(rest[0], ok, synced)], rest[1..];
    }
  }

  function Next(s: State, step: Step): State
    requires Permitted(s, step)
  {
    match step
    case Arrive(w) => s.(arrived := s.arrived + [w], waiting := s.waiting + [w])
    case Skip(ok) => s.(done := s.done + [Ack(s.waiting[0], ok, false)], waiting := s.waiting[1..])
    case Lead(n, ops) => s.(leading := Some(Leading(n, Group(s.lastSequence + 1, ops))))
    case Commit(outcome) =>
      var n, g := s.leading.value.n, s.leading.value.group;
      s.(done := s.done + AcksFor(s.waiting[..n], outcome.Succeeds?, s.waiting[0].sync && outcome.Succeeds?),
         waiting := s.waiting[n..], leading := None, lastSequence := s.lastSequence + |g.ops|,
         logged := if outcome.LogFails? then s.logged else s.logged + [g],
         applied := if outcome.Succeeds? then s.applied + [g] else s.applied,
         durable := if outcome.Succeeds? && s.waiting[0].sync then |s.logged| + 1 else s.durable,
         bgError := s.bgError || outcome.SyncFails?, failed := s.failed || !outcome.Succeeds?)
    case RecordBackgroundError => s.(bgError := true)
  }

  // ---------- What every run keeps ----------

  function WritersOf(acks: seq<Ack>): (r: seq<Writer>)
    ensures |r| == |acks|
  {
    seq(|acks|, i requires 0 <= i < |acks| => acks[i].writer)
  }

  // The operations of the batches that were acknowledged as written, in that order.
  function Acknowledged(acks: seq<Ack>): seq<Op> {
    if acks == [] then []
    else
      var a := acks[|acks| - 1];
      Acknowledged(acks[..|acks| - 1]) + (if a.ok && a.writer.batch.Some? then a.writer.batch.value else [])
  }

  function OpsOfGroups(groups: seq<Group>): seq<Op> {
    if groups == [] then [] else OpsOfGroups(groups[..|groups| - 1]) + groups[|groups| - 1].ops
  }

  predicate SyncHonoured(acks: seq<Ack>) {
    forall i :: 0 <= i < |acks| && acks[i].ok && acks[i].writer.sync && acks[i].writer.batch.Some? ==> acks[i].synced
  }

  predicate SmallWriters(writers: seq<Writer>) {
    forall i :: 0 <= i < |writers| && writers[i].batch.Some? ==> SmallBatch(writers[i].batch.value)
  }

  predicate LeadingOk(s: State, l: Leading) {
    && 1 <= l.n <= |s.waiting| && l.group.ops == OpsIn(s.waiting[..l.n])
    && l.group.first == s.lastSequence + 1 && Writable(l.group)
    && (forall i :: 0 <= i < l.n && s.waiting[i].sync ==> s.waiting[0].sync)
  }

  // Later groups have larger sequence numbers.
  predicate Ascending(groups: seq<Group>, last: nat) {
    && (forall i :: 0 <= i < |groups| ==> groups[i].first + |groups[i].ops| <= last + 1)
    && (forall i, j :: 0 <= i < j < |groups| ==> groups[i].first + |groups[i].ops| <= groups[j].first)
  }

  // The first list of groups is the second one, perhaps without some of them.
  predicate Among(some: seq<Group>, all: seq<Group>)
    decreases |all|
  {
    some == [] ||
    (all != [] && ((some[|some| - 1] == all[|all| - 1] && Among(some[..|some| - 1], all[..|all| - 1]))
                   || Among(some, all[..|all| - 1])))
  }

  // Whatever was acknowledged up to a synced write is in the groups that are durable.
  predicate SyncedAreDurable(acks: seq<Ack>, logged: seq<Group>, durable: nat) {
    && durable <= |logged|
    && forall i :: 0 <= i < |acks| && acks[i].synced ==> |Acknowledged(acks[..i + 1])| <= |OpsOfGroups(logged[..durable])|
  }

  // Writers are answered in the order of their arrival, each once.
  predicate InOrder(s: State) {
    s.arrived == WritersOf(s.done) + s.waiting && SmallWriters(s.waiting)
  }

  // What was applied is what was acknowledged, in the same order, and was logged before.
  predicate ExactlyOnce(s: State) {
    OpsOfGroups(s.applied) == Acknowledged(s.done) && Ascending(s.applied, s.lastSequence) && Among(s.applied, s.logged)
  }

  // While nothing fails, what was logged was applied, without a gap in the numbers, and
  // what was synced is durable.
  predicate GapFree(s: State, start: nat) {
    s.failed ||
    (s.applied == s.logged && Consecutive(start, s.logged) && s.lastSequence == LastAfter(start, s.logged)
     && SyncedAreDurable(s.done, s.logged, s.durable))
  }

  ghost predicate Inv(s: State, start: nat) {
    var order := InOrder(s) && ExactlyOnce(s);
    var synced := SyncHonoured(s.done);
    var leadingOk := s.leading.Some? ==> LeadingOk(s, s.leading.value);
    order && synced && GapFree(s, start) && leadingOk
  }

  lemma WritersOfTogether(a: seq<Ack>, b: seq<Ack>)
    ensures WritersOf(a + b) == WritersOf(a) + WritersOf(b)
  {
  }

  lemma WritersOfAcks(writers: seq<Writer>, ok: bool, synced: bool)
    ensures WritersOf(AcksFor(writers, ok, synced)) == writers
  {
  }

  lemma AcknowledgedOfOne(acks: seq<Ack>, a: Ack)
    ensures Acknowledged(acks + [a]) == Acknowledged(acks) + (if a.ok && a.writer.batch.Some? then a.writer.batch.value else [])
  {
    assert (acks + [a])[..|acks|] == acks;
  }

  lemma {:induction false} AcknowledgedTogether(a: seq<Ack>, b: seq<Ack>)
    ensures Acknowledged(a + b) == Acknowledged(a) + Acknowledged(b)
  {
    if b == [] {
      assert a + b == a;
    } else {
      var front, last := b[..|b| - 1], b[|b| - 1];
      AcknowledgedTogether(a, front);
      assert a + b == (a + front) + [last] && b == front + [last];
      AcknowledgedLast(a + front, front, a, last);
    }
  }

  lemma AcknowledgedLast(ab: seq<Ack>, b: seq<Ack>, a: seq<Ack>, last: Ack)
    requires Acknowledged(ab) == Acknowledged(a) + Acknowledged(b)
    ensures Acknowledged(ab + [last]) == Acknowledged(a) + Acknowledged(b + [last])
  {
    hide Acknowledged;
    AcknowledgedOfOne(ab, last);
    AcknowledgedOfOne(b, last);
  }

  lemma {:induction false} AcknowledgedGroup(writers: seq<Writer>, ok: bool, synced: bool)
    ensures Acknowledged(AcksFor(writers, ok, synced)) == if ok then OpsIn(writers) else []
  {
    if writers != [] {
      AcknowledgedGroup(writers[..|writers| - 1], ok, synced);
      assert AcksFor(writers, ok, synced)[..|writers| - 1] == AcksFor(writers[..|writers| - 1], ok, synced);
    }
  }

  lemma OpsOfGroupsAppend(groups: seq<Group>, g: Group)
    ensures OpsOfGroups(groups + [g]) == OpsOfGroups(groups) + g.ops
  {
    assert (groups + [g])[..|groups|] == groups;
  }

  lemma {:induction false} ConsecutiveAppend(start: nat, groups: seq<Group>, g: Group)
    requires Consecutive(start, groups) && Writable(g) && g.first == LastAfter(start, groups) + 1
    ensures Consecutive(start, groups + [g]) && LastAfter(start, groups + [g]) == LastAfter(start, groups) + |g.ops|
    decreases |groups|
  {
    hide Writable;
    if groups == [] {
      assert ([] + [g])[1..] == [];
    } else {
      ConsecutiveAppend(start + |groups[0].ops|, groups[1..], g);
      assert (groups + [g])[1..] == groups[1..] + [g];
    }
  }

  // ---------- What is logged and durable ----------

  lemma AmongMore(some: seq<Group>, all: seq<Group>, g: Group)
    requires Among(some, all)
    ensures Among(some, all + [g]) && Among(some + [g], all + [g])
  {
    assert (some + [g])[..|some|] == some && (all + [g])[..|all|] == all;
  }

  lemma {:induction false} FewerAcknowledged(acks: seq<Ack>, i: nat)
    requires i <= |acks|
    ensures Acknowledged(acks[..i]) <= Acknowledged(acks)
  {
    if i < |acks| {
      var front := acks[..|acks| - 1];
      FewerAcknowledged(front, i);
      assert front[..i] == acks[..i];
    } else {
      assert acks[..i] == acks;
    }
  }

  lemma {:induction false} FewerOpsOfGroups(groups: seq<Group>, i: nat)
    requires i <= |groups|
    ensures OpsOfGroups(groups[..i]) <= OpsOfGroups(groups)
  {
    if i < |groups| {
      var front := groups[..|groups| - 1];
      FewerOpsOfGroups(front, i);
      assert front[..i] == groups[..i];
    } else {
      assert groups[..i] == groups;
    }
  }

  // A sync covers everything logged so far.
  lemma SyncMakesDurable(acks: seq<Ack>, now: seq<Group>)
    requires OpsOfGroups(now) == Acknowledged(acks)
    ensures SyncedAreDurable(acks, now, |now|)
  {
    hide OpsOfGroups, Acknowledged;
    assert now[..|now|] == now;
    forall i | 0 <= i < |acks| && acks[i].synced ensures |Acknowledged(acks[..i + 1])| <= |OpsOfGroups(now[..|now|])| {
      FewerAcknowledged(acks, i + 1);
    }
  }

  // Acknowledgements without a sync change nothing.
  lemma StaysDurable(acks: seq<Ack>, more: seq<Ack>, logged: seq<Group>, g: seq<Group>, durable: nat)
    requires SyncedAreDurable(acks, logged, durable)
    requires forall i :: 0 <= i < |more| ==> !more[i].synced
    ensures SyncedAreDurable(acks + more, logged + g, durable)
  {
    hide OpsOfGroups, Acknowledged;
    var all := acks + more;
    assert (logged + g)[..durable] == logged[..durable];
    forall i | 0 <= i < |all| && all[i].synced ensures |Acknowledged(all[..i + 1])| <= |OpsOfGroups(logged[..durable])| {
      SyncedBefore(acks, more, i);
    }
  }

  lemma SyncedBefore(acks: seq<Ack>, more: seq<Ack>, i: nat)
    requires i < |acks + more| && (acks + more)[i].synced
    requires forall i :: 0 <= i < |more| ==> !more[i].synced
    ensures i < |acks| && acks[i].synced && (acks + more)[..i + 1] == acks[..i + 1]
  {
  }

  // ---------- A group is small enough to be written ----------

  lemma {:induction false} RecordsAreLonger(ops: seq<Op>)
    ensures |Records(ops)| >= |ops|
  {
    hide Record;
    if ops != [] { RecordsAreLonger(ops[1..]); }
  }

  lemma BytesAreMore(ops: seq<Op>)
    ensures |ops| <= ByteSize(ops)
  {
    RecordsAreLonger(ops);
  }

  lemma {:induction false} FewerOpsThanBytes(writers: seq<Writer>)
    ensures |OpsIn(writers)| <= SizeOf(writers)
  {
    hide ByteSize;
    if writers != [] {
      var w := writers[|writers| - 1];
      FewerOpsThanBytes(writers[..|writers| - 1]);
      if w.batch.Some? { BytesAreMore(w.batch.value); }
    }
  }

  lemma {:induction false} OpsAreSmall(writers: seq<Writer>)
    requires SmallWriters(writers)
    ensures AllSmall(OpsIn(writers))
  {
    if writers != [] { OpsAreSmall(writers[..|writers| - 1]); }
  }

  // The group is the first batch alone, or its size is within the limit.
  lemma {:induction false} GroupSize(writers: seq<Writer>, n: nat)
    requires 1 <= n <= |writers| && writers[0].batch.Some?
    requires forall i :: 1 <= i < n ==> Joins(writers, i)
    ensures OpsIn(writers[..n]) == writers[0].batch.value || SizeOf(writers[..n]) <= MaxSize(writers[0].batch.value)
  {
    hide ByteSize, MaxSize, OpsIn, SizeOf;
    if n == 1 {
      FirstAlone(writers[0]);
      assert writers[..1] == [writers[0]];
    } else {
      GroupSize(writers, n - 1);
      var w := writers[n - 1];
      assert writers[..n] == writers[..n - 1] + [w];
      OpsInAppend(writers[..n - 1], w);
      SizeOfAppend(writers[..n - 1], w);
      assert Joins(writers, n - 1);
      assert OpsIn(writers[..n - 1]) + [] == OpsIn(writers[..n - 1]);
    }
  }

  lemma GroupIsWritable(s: State, n: nat, ops: seq<Op>)
    requires s.waiting != [] && s.waiting[0].batch.Some? && SmallWriters(s.waiting)
    requires Forms(s.waiting, n, ops) && s.lastSequence + |ops| <= MAX_SEQUENCE
    ensures Writable(Group(s.lastSequence + 1, ops))
  {
    hide OpsIn, SizeOf;
    GroupSize(s.waiting, n);
    FewerOpsThanBytes(s.waiting[..n]);
    OpsAreSmall(s.waiting[..n]);
  }

  // The whole group takes no more than a megabyte, and no more than 128 KB beyond a small
  // first batch, unless it is the first batch alone.
  lemma GroupIsBounded(writers: seq<Writer>, n: nat, ops: seq<Op>)
    requires writers != [] && writers[0].batch.Some? && Forms(writers, n, ops)
    ensures var first := |Rep(0, writers[0].batch.value)|;
            || ops == writers[0].batch.value
            || |Rep(0, ops)| <= if first <= 128 * 1024 then first + 128 * 1024 else 1024 * 1024
  {
    hide Rep, OpsIn, SizeOf, Records, Batches;
    GroupSize(writers, n);
    SizeCountsBytes(writers[..n]);
    SomeBatch(writers[..n]);
    RepLength(ops);
  }

  function Batches(writers: seq<Writer>): nat {
    if writers == [] then 0
    else Batches(writers[..|writers| - 1]) + if writers[|writers| - 1].batch.Some? then 1 else 0
  }

  lemma {:induction false} SomeBatch(writers: seq<Writer>)
    requires writers != [] && writers[0].batch.Some?
    ensures Batches(writers) >= 1
  {
    if |writers| > 1 { SomeBatch(writers[..|writers| - 1]); }
  }

  lemma RepLength(ops: seq<Op>)
    ensures |Rep(0, ops)| == HEADER + |Records(ops)|
  {
  }

  // The size that limits a group is that of its batches, each with its own header.
  lemma {:induction false} SizeCountsBytes(writers: seq<Writer>)
    ensures SizeOf(writers) == |Records(OpsIn(writers))| + HEADER * Batches(writers)
  {
    hide Records, Rep;
    if writers == [] {
      NoRecords();
    } else {
      var w, front := writers[|writers| - 1], writers[..|writers| - 1];
      SizeCountsBytes(front);
      if w.batch.Some? {
        RepLength(w.batch.value);
        RecordsTogether(OpsIn(front), w.batch.value);
      } else {
        assert OpsIn(front) + [] == OpsIn(front);
      }
    }
  }

  lemma NoRecords()
    ensures Records([]) == []
  {
  }

  // ---------- Every step keeps the invariant ----------

  lemma ArriveKeepsInv(s: State, start: nat, w: Writer)
    requires Inv(s, start) && Permitted(s, Arrive(w))
    ensures Inv(Next(s, Arrive(w)), start)
  {
    hide Consecutive, OpsOfGroups, Acknowledged, Ascending, SyncHonoured, LastAfter, Writable, OpsIn, WritersOf, Among, SyncedAreDurable;
    assert s.arrived + [w] == WritersOf(s.done) + (s.waiting + [w]);
    if s.leading.Some? {
      var n := s.leading.value.n;
      assert (s.waiting + [w])[..n] == s.waiting[..n];
    }
  }

  lemma SkipKeepsInv(s: State, start: nat, ok: bool)
    requires Inv(s, start) && Permitted(s, Skip(ok))
    ensures Inv(Next(s, Skip(ok)), start)
  {
    hide Consecutive, OpsOfGroups, Acknowledged, Ascending, LastAfter, WritersOf, Among, SyncedAreDurable, AcksFor, Writable;
    var a := Ack(s.waiting[0], ok, false);
    if !s.failed { SkipStaysDurable(s, a); }
    AcknowledgedOfOne(s.done, a);
    WritersOfOne(s.done, a);
    assert [s.waiting[0]] + s.waiting[1..] == s.waiting;
    assert s.arrived == WritersOf(s.done + [a]) + s.waiting[1..];
  }

  lemma SkipStaysDurable(s: State, a: Ack)
    requires SyncedAreDurable(s.done, s.logged, s.durable) && !a.synced
    ensures SyncedAreDurable(s.done + [a], s.logged, s.durable)
  {
    hide OpsOfGroups, Acknowledged;
    StaysDurable(s.done, [a], s.logged, [], s.durable);
    assert s.logged + [] == s.logged;
  }

  lemma WritersOfOne(acks: seq<Ack>, a: Ack)
    ensures WritersOf(acks + [a]) == WritersOf(acks) + [a.writer]
  {
  }

  lemma LeadKeepsInv(s: State, start: nat, n: nat, ops: seq<Op>)
    requires Inv(s, start) && Permitted(s, Lead(n, ops))
    ensures Inv(Next(s, Lead(n, ops)), start)
  {
    hide Consecutive, OpsOfGroups, Acknowledged, Ascending, LastAfter, WritersOf, OpsIn, Writable, Among, SyncedAreDurable;
    GroupIsWritable(s, n, ops);
    assert forall i :: 1 <= i < n && s.waiting[i].sync ==> Joins(s.waiting, i);
  }

  lemma CommitKeepsOrder(s: State, ok: bool, synced: bool, n: nat)
    requires s.arrived == WritersOf(s.done) + s.waiting && n <= |s.waiting|
    ensures s.arrived == WritersOf(s.done + AcksFor(s.waiting[..n], ok, synced)) + s.waiting[n..]
  {
    hide WritersOf, AcksFor;
    WritersOfTogether(s.done, AcksFor(s.waiting[..n], ok, synced));
    WritersOfAcks(s.waiting[..n], ok, synced);
    assert s.waiting == s.waiting[..n] + s.waiting[n..];
  }

  lemma CommitAppliesOnce(s: State, ok: bool, synced: bool, l: Leading)
    requires l.n <= |s.waiting| && l.group.ops == OpsIn(s.waiting[..l.n]) && OpsOfGroups(s.applied) == Acknowledged(s.done)
    ensures OpsOfGroups(if ok then s.applied + [l.group] else s.applied)
         == Acknowledged(s.done + AcksFor(s.waiting[..l.n], ok, synced))
  {
    hide OpsIn, OpsOfGroups, Acknowledged, AcksFor;
    OpsOfGroupsAppend(s.applied, l.group);
    AcknowledgedTogether(s.done, AcksFor(s.waiting[..l.n], ok, synced));
    AcknowledgedGroup(s.waiting[..l.n], ok, synced);
  }

  lemma AcksAreSynced(writers: seq<Writer>, ok: bool, synced: bool)
    ensures forall i :: 0 <= i < |AcksFor(writers, ok, synced)| ==>
      AcksFor(writers, ok, synced)[i].synced == synced && AcksFor(writers, ok, synced)[i].ok == ok
      && AcksFor(writers, ok, synced)[i].writer == writers[i]
  {
  }

  lemma AscendingMore(groups: seq<Group>, last: nat, g: Group)
    requires Ascending(groups, last) && g.first == last + 1
    ensures Ascending(groups, last + |g.ops|) && Ascending(groups + [g], last + |g.ops|)
  {
  }

  lemma HonouredMore(acks: seq<Ack>, writers: seq<Writer>, ok: bool, synced: bool)
    requires SyncHonoured(acks) && (ok ==> forall i :: 0 <= i < |writers| && writers[i].sync ==> synced)
    ensures SyncHonoured(acks + AcksFor(writers, ok, synced))
  {
  }

  lemma CommitStaysGapFree(s: State, start: nat, outcome: Outcome)
    requires GapFree(s, start) && ExactlyOnce(s) && Permitted(s, Commit(outcome)) && LeadingOk(s, s.leading.value)
    ensures GapFree(Next(s, Commit(outcome)), start)
  {
    hide Consecutive, OpsOfGroups, Acknowledged, LastAfter, OpsIn, Writable, Among, SyncedAreDurable, AcksFor, Ascending;
    var l := s.leading.value;
    var synced := s.waiting[0].sync;
    if !s.failed && outcome.Succeeds? {
      CommitAppliesOnce(s, true, synced, l);
      AcksAreSynced(s.waiting[..l.n], true, synced);
      ConsecutiveAppend(start, s.logged, l.group);
      if synced {
        SyncMakesDurable(s.done + AcksFor(s.waiting[..l.n], true, true), s.logged + [l.group]);
      } else {
        StaysDurable(s.done, AcksFor(s.waiting[..l.n], true, false), s.logged, [l.group], s.durable);
      }
    }
  }

  lemma CommitStaysExact(s: State, outcome: Outcome)
    requires ExactlyOnce(s) && Permitted(s, Commit(outcome)) && LeadingOk(s, s.leading.value)
    ensures ExactlyOnce(Next(s, Commit(outcome)))
  {
    hide OpsOfGroups, Acknowledged, OpsIn, Writable, Among, AcksFor, Ascending;
    var l := s.leading.value;
    var synced := s.waiting[0].sync && outcome.Succeeds?;
    CommitAppliesOnce(s, outcome.Succeeds?, synced, l);
    AscendingMore(s.applied, s.lastSequence, l.group);
    AmongMore(s.applied, s.logged, l.group);
  }

  lemma CommitKeepsInv(s: State, start: nat, outcome: Outcome)
    requires Inv(s, start) && Permitted(s, Commit(outcome))
    ensures Inv(Next(s, Commit(outcome)), start)
  {
    hide ExactlyOnce, GapFree, WritersOf, OpsIn, Writable, AcksFor, SyncHonoured;
    var l := s.leading.value;
    var synced := s.waiting[0].sync && outcome.Succeeds?;
    CommitKeepsOrder(s, outcome.Succeeds?, synced, l.n);
    CommitStaysExact(s, outcome);
    CommitStaysGapFree(s, start, outcome);
    HonouredMore(s.done, s.waiting[..l.n], outcome.Succeeds?, synced);
  }

  lemma ErrorKeepsInv(s: State, start: nat)
    requires Inv(s, start)
    ensures Inv(s.(bgError := true), start)
  {
    hide Consecutive, OpsOfGroups, Acknowledged, Ascending, SyncHonoured, LastAfter, Writable, OpsIn, WritersOf, Among, SyncedAreDurable;
  }

  lemma NextKeepsInv(s: State, start: nat, step: Step)
    requires Inv(s, start) && Permitted(s, step)
    ensures Inv(Next(s, step), start)
  {
    match step
    case Arrive(w) => ArriveKeepsInv(s, start, w);
    case Skip(ok) => SkipKeepsInv(s, start, ok);
    case Lead(n, ops) => LeadKeepsInv(s, start, n, ops);
    case Commit(outcome) => CommitKeepsInv(s, start, outcome);
    case RecordBackgroundError => ErrorKeepsInv(s, start);
  }

  // ---------- Whole runs ----------

  function Opened(start: nat): State {
    State([], [], [], None, start, [], [], 0, false, false)
  }

  predicate Run(start: nat, steps: seq<Step>)
    decreases |steps|, 0
  {
    steps == [] ||
    (Run(start, steps[..|steps| - 1]) && Permitted(After(start, steps[..|steps| - 1]), steps[|steps| - 1]))
  }

  // The state after a run from a database whose last sequence number was the given one.
  function After(start: nat, steps: seq<Step>): State
    requires Run(start, steps)
    decreases |steps|, 1
  {
    if steps == [] then Opened(start) else Next(After(start, steps[..|steps| - 1]), steps[|steps| - 1])
  }

  lemma {:induction false} RunsKeepInv(start: nat, steps: seq<Step>)
    requires Run(start, steps)
    ensures Inv(After(start, steps), start)
  {
    hide Inv, Permitted, Next;
    if steps == [] {
      OpenedIsOk(start);
    } else {
      RunsKeepInv(start, steps[..|steps| - 1]);
      NextKeepsInv(After(start, steps[..|steps| - 1]), start, steps[|steps| - 1]);
    }
  }

  lemma OpenedIsOk(start: nat)
    ensures Inv(Opened(start), start)
  {
    assert WritersOf([]) + [] == [];
  }

  // Over every interleaving of writers: they are answered in the order of their arrival;
  // the batches acknowledged as written are exactly what was applied, in that order; and a
  // writer that asked for a sync is never acknowledged without one.
  lemma GroupCommitIsRight(start: nat, steps: seq<Step>)
    requires Run(start, steps)
    ensures var s := After(start, steps);
            && WritersOf(s.done) <= s.arrived
            && OpsOfGroups(s.applied) == Acknowledged(s.done)
            && Ascending(s.applied, s.lastSequence)
            && SyncHonoured(s.done) && Among(s.applied, s.logged)
  {
    hide OpsOfGroups, Acknowledged, Ascending, SyncHonoured, Consecutive, LeadingOk, Among, SyncedAreDurable;
    RunsKeepInv(start, steps);
  }

  // The groups that were ever led, whether or not logging them succeeded.
  function Led(start: nat, steps: seq<Step>): seq<Group>
    requires Run(start, steps)
  {
    if steps == [] then []
    else
      var front, last := steps[..|steps| - 1], steps[|steps| - 1];
      Led(start, front) + if last.Lead? then [Group(After(start, front).lastSequence + 1, last.ops)] else []
  }

  // The last sequence number that is spoken for.
  function Taken(s: State): nat {
    s.lastSequence + if s.leading.Some? then |s.leading.value.group.ops| else 0
  }

  // Whatever fails, no sequence number is ever used for two groups.
  lemma {:induction false} NumbersAreUsedOnce(start: nat, steps: seq<Step>)
    requires Run(start, steps)
    ensures Ascending(Led(start, steps), Taken(After(start, steps)))
  {
    if steps != [] {
      var front, last := steps[..|steps| - 1], steps[|steps| - 1];
      NumbersAreUsedOnce(start, front);
      if last.Lead? {
        AscendingMore(Led(start, front), After(start, front).lastSequence, Group(After(start, front).lastSequence + 1, last.ops));
      }
    }
  }

  // What has changed since an earlier state is that writers have arrived, and that some
  // were told that their write failed.
  ghost predicate OnlyRefusals(before: State, after: State) {
    && after.applied == before.applied && before.done <= after.done
    && (forall i :: |before.done| <= i < |after.done| ==> !after.done[i].ok)
  }

  // With a background error and nobody leading, a step writes nothing.
  lemma RefusesNext(before: State, s: State, step: Step)
    requires s.bgError && s.leading.None? && OnlyRefusals(before, s) && Permitted(s, step)
    ensures var t := Next(s, step);
            t.bgError && t.leading.None? && OnlyRefusals(before, t) && t.logged == s.logged && t.lastSequence == s.lastSequence
  {
  }

  lemma FailedSyncRefuses(s: State)
    requires Permitted(s, Commit(SyncFails))
    ensures Next(s, Commit(SyncFails)).bgError && Next(s, Commit(SyncFails)).leading.None?
    ensures s.leading.Some? && OnlyRefusals(s, Next(s, Commit(SyncFails)))
    ensures Next(s, Commit(SyncFails)).logged == s.logged + [s.leading.value.group]
  {
  }

  // After a failed sync nothing is written any more: neither the group whose sync failed
  // nor any later write is applied or acknowledged as written.  The group is the last one
  // in the log, where it may show up when the database is opened again.
  lemma {:induction false} NothingIsWrittenAfterFailedSync(start: nat, steps: seq<Step>, more: seq<Step>)
    requires Run(start, steps + [Commit(SyncFails)] + more) && Run(start, steps)
    ensures var s := After(start, steps + [Commit(SyncFails)] + more);
            && s.bgError && s.leading.None? && OnlyRefusals(After(start, steps), s)
            && After(start, steps).leading.Some? && s.logged == After(start, steps).logged + [After(start, steps).leading.value.group]
  {
    hide OnlyRefusals, Permitted, Next;
    var all := steps + [Commit(SyncFails)] + more;
    if more == [] {
      assert all[..|all| - 1] == steps && all[|all| - 1] == Commit(SyncFails);
      FailedSyncRefuses(After(start, steps));
    } else {
      var fewer := more[..|more| - 1];
      assert all[..|all| - 1] == steps + [Commit(SyncFails)] + fewer;
      NothingIsWrittenAfterFailedSync(start, steps, fewer);
      RefusesNext(After(start, steps), After(start, all[..|all| - 1]), all[|all| - 1]);
    }
  }

  // Recovery from the first n bytes of the log of the groups inserts what the wholly
  // logged ones inserted, and finds the last sequence number of those.
  ghost predicate RecoversFrom(crc: Checksum, start: nat, groups: seq<Group>, n: nat)
    requires n <= |LogOf(crc, RepsOf(groups))|
  {
    forall paranoid, full ::
      var k := Whole(crc, RepsOf(groups), n);
      var t := RecoverFrom(crc, paranoid, full, LogOf(crc, RepsOf(groups))[..n], 0, Recovered([], None, start, None));
      t.error.None? && Flatten(t.tables) == Inserted(groups[..k]) && t.maxSequence == LastAfter(start, groups[..k])
  }

  lemma ConsecutiveRecovers(crc: Checksum, start: nat, groups: seq<Group>, n: nat)
    requires Consecutive(start, groups) && n <= |LogOf(crc, RepsOf(groups))|
    ensures RecoversFrom(crc, start, groups, n)
  {
    hide LogOf, RecoverFrom, Consecutive, Inserted, Flatten, Whole;
    forall paranoid, full
      ensures var k := Whole(crc, RepsOf(groups), n);
              var t := RecoverFrom(crc, paranoid, full, LogOf(crc, RepsOf(groups))[..n], 0, Recovered([], None, start, None));
              t.error.None? && Flatten(t.tables) == Inserted(groups[..k]) && t.maxSequence == LastAfter(start, groups[..k])
    {
      PrefixIsRecovered(crc, paranoid, full, start, start, groups, n);
    }
  }

  // While nothing fails, a crash at any byte of the log loses only groups at the end of
  // what was applied.
  lemma CrashedRunIsRecovered(start: nat, steps: seq<Step>, crc: Checksum, n: nat)
    requires Run(start, steps) && !After(start, steps).failed
    requires n <= |LogOf(crc, RepsOf(After(start, steps).applied))|
    ensures RecoversFrom(crc, start, After(start, steps).applied, n)
    ensures After(start, steps).lastSequence == LastAfter(start, After(start, steps).applied)
  {
    hide LogOf, RecoversFrom, Consecutive, OpsOfGroups, Acknowledged, Ascending, LeadingOk, Among, SyncedAreDurable;
    RunsKeepInv(start, steps);
    ConsecutiveRecovers(crc, start, After(start, steps).applied, n);
  }

  lemma {:induction false} LogIsLonger(crc: Checksum, records: seq<Bytes>, i: nat)
    requires i <= |records|
    ensures |LogOf(crc, records[..i])| <= |LogOf(crc, records)|
  {
    hide Emit;
    if i < |records| {
      LogIsLonger(crc, records[..|records| - 1], i);
      assert records[..|records| - 1][..i] == records[..i];
    } else {
      assert records[..i] == records;
    }
  }

  lemma WholeReaches(crc: Checksum, records: seq<Bytes>, m: nat, n: nat)
    requires m <= |records| && |LogOf(crc, records[..m])| <= n
    ensures Whole(crc, records, n) >= m
  {
    hide LogOf;
    var k := Whole(crc, records, n);
    if k < m {
      assert records[..m][..k + 1] == records[..k + 1];
      LogIsLonger(crc, records[..m], k + 1);
    }
  }

  // The groups that the last sync has made durable.
  function Durable(s: State): seq<Group> {
    if s.durable <= |s.logged| then s.logged[..s.durable] else s.logged
  }

  // What counts as durable ends with an acknowledged sync: nothing becomes durable without.
  ghost predicate EndsWithSync(s: State) {
    s.failed || s.durable == 0 ||
    (s.durable <= |s.logged|
     && exists i :: 0 < i <= |s.done| && s.done[i - 1].synced && Acknowledged(s.done[..i]) == OpsOfGroups(s.logged[..s.durable]))
  }

  lemma StillEndsWithSync(s: State, t: State)
    requires EndsWithSync(s) && !s.failed && s.done <= t.done && s.logged <= t.logged && s.durable == t.durable
    ensures EndsWithSync(t)
  {
    hide Acknowledged, OpsOfGroups;
    if s.durable > 0 {
      var i :| 0 < i <= |s.done| && s.done[i - 1].synced && Acknowledged(s.done[..i]) == OpsOfGroups(s.logged[..s.durable]);
      assert t.done[..i] == s.done[..i] && t.logged[..t.durable] == s.logged[..s.durable];
      assert t.done[i - 1] == s.done[i - 1];
    }
  }

  lemma SyncedCommitEndsWithSync(s: State, start: nat)
    requires Inv(s, start) && !s.failed && Permitted(s, Commit(Succeeds)) && s.waiting[0].sync
    ensures EndsWithSync(Next(s, Commit(Succeeds)))
  {
    hide Acknowledged, OpsOfGroups, Consecutive, Ascending, SyncedAreDurable, Among, Writable, OpsIn;
    var t := Next(s, Commit(Succeeds));
    NextKeepsInv(s, start, Commit(Succeeds));
    AcksAreSynced(s.waiting[..s.leading.value.n], true, true);
    assert t.done[..|t.done|] == t.done && t.logged[..|t.logged|] == t.logged;
    assert t.done[|t.done| - 1].synced;
  }

  lemma {:induction false} NothingIsDurableWithoutSync(start: nat, steps: seq<Step>)
    requires Run(start, steps)
    ensures EndsWithSync(After(start, steps))
  {
    hide Inv, EndsWithSync, AcksFor, Acknowledged, OpsOfGroups;
    if steps == [] {
      NothingDurable(Opened(start));
    } else {
      var s, step := After(start, steps[..|steps| - 1]), steps[|steps| - 1];
      NothingIsDurableWithoutSync(start, steps[..|steps| - 1]);
      RunsKeepInv(start, steps[..|steps| - 1]);
      if Next(s, step).failed {
        FailedEnds(Next(s, step));
      } else if step == Commit(Succeeds) && s.waiting[0].sync {
        SyncedCommitEndsWithSync(s, start);
      } else {
        StillEndsWithSync(s, Next(s, step));
      }
    }
  }

  lemma NothingDurable(s: State)
    requires s.durable == 0
    ensures EndsWithSync(s)
  {
  }

  lemma FailedEnds(s: State)
    requires s.failed
    ensures EndsWithSync(s)
  {
  }

  // A crash keeps at least what was synced: then recovery finds every write that was
  // acknowledged as synced, and everything acknowledged before it.
  lemma SyncedWritesSurvive(start: nat, steps: seq<Step>, crc: Checksum, n: nat)
    requires Run(start, steps) && !After(start, steps).failed
    requires |LogOf(crc, RepsOf(Durable(After(start, steps))))| <= n <= |LogOf(crc, RepsOf(After(start, steps).logged))|
    ensures var s := After(start, steps);
            var k := Whole(crc, RepsOf(s.logged), n);
            && RecoversFrom(crc, start, s.logged, n)
            && forall i :: 0 <= i < |s.done| && s.done[i].synced ==> Acknowledged(s.done[..i + 1]) <= OpsOfGroups(s.logged[..k])
  {
    hide LogOf, RecoversFrom, Consecutive, OpsOfGroups, Acknowledged, Ascending, LeadingOk, Among, WritersOf, SyncHonoured;
    var s := After(start, steps);
    var k := Whole(crc, RepsOf(s.logged), n);
    RunsKeepInv(start, steps);
    ConsecutiveRecovers(crc, start, s.logged, n);
    assert RepsOf(s.logged)[..s.durable] == RepsOf(s.logged[..s.durable]);
    WholeReaches(crc, RepsOf(s.logged), s.durable, n);
    FewerOpsOfGroups(s.logged, k);
    FewerOpsOfGroups(s.logged[..k], s.durable);
    assert s.logged[..k][..s.durable] == s.logged[..s.durable];
    forall i | 0 <= i < |s.done| && s.done[i].synced ensures Acknowledged(s.done[..i + 1]) <= OpsOfGroups(s.logged[..k]) {
      FewerAcknowledged(s.done, i + 1);
      PrefixesOfOne(Acknowledged(s.done[..i + 1]), OpsOfGroups(s.logged[..k]), Acknowledged(s.done));
    }
  }

  lemma PrefixesOfOne(a: seq<Op>, b: seq<Op>, whole: seq<Op>)
    requires a <= whole && b <= whole && |a| <= |b|
    ensures a <= b
  {
    assert a == whole[..|a|] && b == whole[..|b|] && b[..|a|] == whole[..|a|];
  }
}
