// Readers of the skip list run beside one writer, without locks.  Every load and every
// store is a step, and the steps of all parties interleave in any way.
module SkipListReaders {
  import opened SkipLists

  // FindGreaterOrEqual, FindLessThan and FindLast.
  datatype Goal = AtLeast(target: Key) | LessThan(target: Key) | Last

  datatype Reader =
    | Reading(goal: Goal, x: nat, level: nat)
    | Finished(goal: Goal, result: Link)

  // Insert: searched, then the height is raised if need be, then the node is made and
  // linked level by level with two stores a level.
  datatype Phase =
    | Idle
    | Searched(key: Key, height: nat, prev: seq<nat>)
    | Raised(key: Key, height: nat, prev: seq<nat>)
    | AtLevel(n: nat, prev: seq<nat>, level: nat, copied: bool)

  datatype State = State(k: Links, lists: Lists, phase: Phase, readers: seq<Reader>)

  datatype Step =
    | BeginInsert(key: Key, height: nat, prev: seq<nat>)
    | RaiseHeight
    | MakeNode
    | CopyNext
    | Publish
    | EndInsert
    | BeginRead(goal: Goal, height: nat)
    | Load(reader: nat)

  // What the writer's own search finds; nobody else changes the list meanwhile.
  predicate SearchResult(k: Links, lists: Lists, key: Key, prev: seq<nat>) {
    && |prev| == |lists| == MAX_HEIGHT
    && (forall l :: 0 <= l < MAX_HEIGHT ==> Predecessor(k, lists[l], l, prev[l], key))
    && (forall n :: n in lists[0] ==> n < |k.keys| && k.keys[n] != key)
  }

  predicate Permitted(s: State, step: Step) {
    match step
    case BeginInsert(key, height, prev) => s.phase.Idle? && 1 <= height <= MAX_HEIGHT && SearchResult(s.k, s.lists, key, prev)
    case RaiseHeight => s.phase.Searched?
    case MakeNode => s.phase.Raised?
    case CopyNext => s.phase.AtLevel? && !s.phase.copied && CanStore(s)
    case Publish => s.phase.AtLevel? && s.phase.copied && CanStore(s)
    case EndInsert => s.phase.AtLevel? && s.phase.n < |s.k.next| && s.phase.level == |s.k.next[s.phase.n]| && !s.phase.copied
    // A reader may see any height the list has had, however stale.
    case BeginRead(_, height) => 1 <= height <= s.k.maxHeight
    case Load(r) => r < |s.readers| && s.readers[r].Reading? && HasLevel(s.k, s.readers[r].x, s.readers[r].level)
  }

  predicate CanStore(s: State)
    requires s.phase.AtLevel?
  {
    && s.phase.level < |s.phase.prev| && s.phase.level < |s.lists|
    && HasLevel(s.k, s.phase.n, s.phase.level) && HasLevel(s.k, s.phase.prev[s.phase.level], s.phase.level)
  }

  // KeyIsAfterNode for a search with a target; anything but null for FindLast.
  predicate GoesOn(k: Links, goal: Goal, link: Link) {
    link.To? && (goal.Last? || (link.node < |k.keys| && k.keys[link.node] < goal.target))
  }

  function AfterLoad(k: Links, r: Reader): Reader
    requires r.Reading? && HasLevel(k, r.x, r.level)
  {
    var link := k.next[r.x][r.level];
    if GoesOn(k, r.goal, link) then r.(x := link.node)
    else if r.level > 0 then r.(level := r.level - 1)
    else Finished(r.goal, if r.goal.AtLeast? then link else To(r.x))
  }

  // A new node, with none of its links stored.
  function WithNode(k: Links, key: Key, height: nat): Links {
    Links(k.keys + [key], k.next + [seq(height, _ => Uninitialized)], k.maxHeight)
  }

  function Next(s: State, step: Step): State
    requires Permitted(s, step)
  {
    match step
    case BeginInsert(key, height, prev) => s.(phase := Searched(key, height, prev))
    case RaiseHeight =>
      s.(phase := Raised(s.phase.key, s.phase.height, s.phase.prev),
         k := if s.phase.height > s.k.maxHeight then s.k.(maxHeight := s.phase.height) else s.k)
    case MakeNode =>
      s.(phase := AtLevel(|s.k.keys|, s.phase.prev, 0, false),
         k := WithNode(s.k, s.phase.key, s.phase.height))
    case CopyNext =>
      s.(phase := s.phase.(copied := true),
         k := SetNext(s.k, s.phase.n, s.phase.level, s.k.next[s.phase.prev[s.phase.level]][s.phase.level]))
    case Publish =>
      s.(phase := s.phase.(level := s.phase.level + 1, copied := false),
         k := SetNext(s.k, s.phase.prev[s.phase.level], s.phase.level, To(s.phase.n)),
         lists := Published(s.lists, s.phase.n, s.phase.prev, s.phase.level))
    case EndInsert => s.(phase := Idle)
    case BeginRead(goal, height) => s.(readers := s.readers + [Reading(goal, HEAD, height - 1)])
    case Load(r) => s.(readers := s.readers[r := AfterLoad(s.k, s.readers[r])])
  }

  // ---------- The invariant ----------

  // The reader stands on its level, before what it looks for.
  predicate ReaderOk(k: Links, lists: Lists, r: Reader) {
    r.Reading? ==>
      && r.level < |lists| && OnLevel(lists[r.level], r.x)
      && (!r.goal.Last? ==> Before(k, r.x, r.goal.target))
  }

  predicate PhaseOk(k: Links, lists: Lists, phase: Phase) {
    match phase
    case Idle => true
    case Searched(key, height, prev) => 1 <= height <= MAX_HEIGHT && SearchResult(k, lists, key, prev)
    case Raised(key, height, prev) => 1 <= height <= k.maxHeight && SearchResult(k, lists, key, prev)
    case AtLevel(n, prev, level, copied) =>
      && Linking(k, lists, n, prev, level)
      && (copied ==> level < |k.next[n]| && HasLevel(k, prev[level], level) && k.next[n][level] == k.next[prev[level]][level])
  }

  predicate ReadersOk(s: State) {
    forall r :: 0 <= r < |s.readers| ==> ReaderOk(s.k, s.lists, s.readers[r])
  }

  predicate Inv(s: State) {
    var structure := Ok(s.k, s.lists);
    var phaseOk := structure && PhaseOk(s.k, s.lists, s.phase);
    phaseOk && ReadersOk(s)
  }

  // Every level is a sorted list, and a sublist of the one below.
  predicate Nested(k: Links, lists: Lists) {
    && |lists| == MAX_HEIGHT
    && (forall l :: 0 <= l < MAX_HEIGHT ==> SortedList(k, lists[l]) && Chained(k, lists[l], l))
    && (forall l :: 0 <= l < MAX_HEIGHT - 1 ==> Subset(lists[l + 1], lists[l]))
  }

  // A step leaves every node on the levels where it is, with its key.
  predicate Grows(s: State, t: State) {
    && s.k.keys <= t.k.keys && |s.lists| == |t.lists| && s.k.maxHeight <= t.k.maxHeight
    && forall l :: 0 <= l < |s.lists| ==> Subset(s.lists[l], t.lists[l])
  }

  lemma MakeNodeKeepsInv(s: State)
    requires Ok(s.k, s.lists) && PhaseOk(s.k, s.lists, s.phase) && s.phase.Raised?
    ensures var t := Next(s, MakeNode); Ok(t.k, t.lists) && PhaseOk(t.k, t.lists, t.phase)
    ensures forall l :: 0 <= l < s.phase.height ==> Next(s, MakeNode).k.next[|s.k.keys|][l] == Uninitialized
  {
    var t, n := Next(s, MakeNode), |s.k.keys|;
    forall l | 0 <= l < MAX_HEIGHT ensures LevelOk(t.k, t.lists[l], l) && n !in t.lists[l] {
      assert LevelOk(s.k, s.lists[l], l);
      MoreNodes(s.k, t.k, s.lists[l], l);
    }
    OnLevelZero(s.k, s.lists);
    forall l | 0 <= l < |t.k.next[n]| ensures Predecessor(t.k, t.lists[l], l, s.phase.prev[l], t.k.keys[n]) {
      assert Predecessor(s.k, s.lists[l], l, s.phase.prev[l], s.phase.key);
    }
  }

  // Whatever is on some level is on the lowest one.
  lemma OnLevelZero(k: Links, lists: Lists)
    requires Ok(k, lists)
    ensures forall l, m :: 0 <= l < MAX_HEIGHT && m in lists[l] ==> m in lists[0]
  {
    for l := 0 to MAX_HEIGHT
      invariant forall j, m :: 0 <= j < l && m in lists[j] ==> m in lists[0]
    {
      if l > 0 { assert Subset(lists[l - 1 + 1], lists[l - 1]); }
    }
  }

  lemma MoreNodes(k: Links, more: Links, list: seq<nat>, level: nat)
    requires LevelOk(k, list, level) && k.keys <= more.keys && k.next <= more.next
    ensures LevelOk(more, list, level)
  {
    forall p | 0 <= p <= |list|
      ensures HasLevel(more, NodeAt(list, p), level) && more.next[NodeAt(list, p)][level] == LinkAt(list, p)
    {
      assert HasLevel(k, NodeAt(list, p), level);
    }
  }

  // The writer's steps keep the structure.
  lemma WriterKeepsStructure(s: State, step: Step)
    requires Ok(s.k, s.lists) && PhaseOk(s.k, s.lists, s.phase) && Permitted(s, step)
    requires !step.BeginRead? && !step.Load?
    ensures var t := Next(s, step); Ok(t.k, t.lists) && PhaseOk(t.k, t.lists, t.phase) && Grows(s, t)
  {
    hide Linking, SearchResult;
    match step
    case BeginInsert(key, height, prev) =>
    case RaiseHeight => RaiseKeepsStructure(s);
    case MakeNode => MakeNodeKeepsInv(s);
    case CopyNext => StoreKeepsStructure(s);
    case Publish => StoreKeepsStructure(s);
    case EndInsert =>
  }

  lemma RaiseKeepsStructure(s: State)
    requires Ok(s.k, s.lists) && PhaseOk(s.k, s.lists, s.phase) && s.phase.Searched?
    ensures var t := Next(s, RaiseHeight); Ok(t.k, t.lists) && PhaseOk(t.k, t.lists, t.phase)
  {
    var t := Next(s, RaiseHeight);
    forall l | 0 <= l < MAX_HEIGHT
      ensures LevelOk(t.k, t.lists[l], l) && Predecessor(t.k, t.lists[l], l, s.phase.prev[l], s.phase.key)
    {
      assert LevelOk(s.k, s.lists[l], l) && Predecessor(s.k, s.lists[l], l, s.phase.prev[l], s.phase.key);
      SameNodes(s.k, t.k, s.lists[l], l);
    }
  }

  lemma SameNodes(k: Links, other: Links, list: seq<nat>, level: nat)
    requires LevelOk(k, list, level) && k.keys == other.keys && k.next == other.next
    ensures LevelOk(other, list, level)
  {
    MoreNodes(k, other, list, level);
  }

  lemma StoreKeepsStructure(s: State)
    requires Ok(s.k, s.lists) && PhaseOk(s.k, s.lists, s.phase) && s.phase.AtLevel? && CanStore(s)
    ensures var t := Next(s, if s.phase.copied then Publish else CopyNext);
            Ok(t.k, t.lists) && PhaseOk(t.k, t.lists, t.phase) && Grows(s, t)
  {
    hide Ok;
    if s.phase.copied {
      PublishLink(s.k, s.lists, s.phase.n, s.phase.prev, s.phase.level);
      InsertAtMembers(s.lists[s.phase.level], Place(s.lists[s.phase.level], s.phase.prev[s.phase.level]), s.phase.n);
    } else {
      CopyLink(s.k, s.lists, s.phase.n, s.phase.prev, s.phase.level);
    }
  }

  lemma GrowthKeepsReader(s: State, t: State, r: Reader)
    requires ReaderOk(s.k, s.lists, r) && Grows(s, t)
    ensures ReaderOk(t.k, t.lists, r)
  {
    if r.Reading? { assert Subset(s.lists[r.level], t.lists[r.level]); }
  }

  // A reader never loads a link that has not been stored, and stays on its level.
  lemma LoadKeepsReader(k: Links, lists: Lists, r: Reader)
    requires Ok(k, lists) && ReaderOk(k, lists, r) && r.Reading?
    ensures HasLevel(k, r.x, r.level) && !k.next[r.x][r.level].Uninitialized?
    ensures ReaderOk(k, lists, AfterLoad(k, r))
  {
    assert LevelOk(k, lists[r.level], r.level);
    LinkIsThere(k, lists[r.level], r.level, r.x);
    if r.level > 0 { assert Subset(lists[r.level - 1 + 1], lists[r.level - 1]); }
  }

  lemma NextKeepsInv(s: State, step: Step)
    requires Inv(s) && Permitted(s, step)
    ensures Inv(Next(s, step)) && Grows(s, Next(s, step))
  {
    hide Ok, PhaseOk, AfterLoad;
    var t := Next(s, step);
    match step
    case BeginRead(goal, height) => BeginReadIsOk(s, goal, height);
    case Load(r) => LoadKeepsReader(s.k, s.lists, s.readers[r]);
    case _ =>
      WriterKeepsStructure(s, step);
      forall r | 0 <= r < |t.readers| ensures ReaderOk(t.k, t.lists, t.readers[r]) {
        GrowthKeepsReader(s, t, s.readers[r]);
      }
  }

  lemma BeginReadIsOk(s: State, goal: Goal, height: nat)
    requires Ok(s.k, s.lists) && 1 <= height <= s.k.maxHeight
    ensures ReaderOk(s.k, s.lists, Reading(goal, HEAD, height - 1))
  {
  }

  // ---------- What a reader returns ----------

  // The answer to a search over the nodes of a list.
  predicate Answers(k: Links, list: seq<nat>, goal: Goal, result: Link) {
    match goal
    case AtLeast(target) => FirstFrom(k, list, target, result)
    case LessThan(target) => LastBefore(k, list, target, result)
    case Last => LastOf(k, list, result)
  }

  // The node with the least key at or after the target; null if there is none.
  predicate FirstFrom(k: Links, list: seq<nat>, target: Key, result: Link) {
    if result.To? then
      && result.node in list && result.node < |k.keys| && k.keys[result.node] >= target
      && (forall n :: n in list && n < |k.keys| && k.keys[n] >= target ==> k.keys[n] >= k.keys[result.node])
    else result == Null && forall n :: n in list && n < |k.keys| ==> k.keys[n] < target
  }

  // The node with the greatest key before the target; the head if there is none.
  predicate LastBefore(k: Links, list: seq<nat>, target: Key, result: Link) {
    && result.To?
    && if result.node == HEAD then forall n :: n in list && n < |k.keys| ==> k.keys[n] >= target
       else
         && result.node in list && result.node < |k.keys| && k.keys[result.node] < target
         && (forall n :: n in list && n < |k.keys| && k.keys[n] < target ==> k.keys[n] <= k.keys[result.node])
  }

  predicate LastOf(k: Links, list: seq<nat>, result: Link) {
    && result.To?
    && if result.node == HEAD then list == []
       else result.node in list && result.node < |k.keys| && forall n :: n in list && n < |k.keys| ==> k.keys[n] <= k.keys[result.node]
  }

  lemma DividedAnswers(k: Links, list: seq<nat>, x: nat, target: Key)
    requires LevelOk(k, list, 0) && OnLevel(list, x) && Before(k, x, target) && HasLevel(k, x, 0) && AtOrAfter(k, k.next[x][0], target)
    ensures FirstFrom(k, list, target, k.next[x][0]) && LastBefore(k, list, target, To(x))
  {
    LinkDivides(k, list, 0, x, target);
    var p := Place(list, x);
    forall n | n in list && n < |k.keys| && k.keys[n] >= target && p < |list| ensures k.keys[n] >= k.keys[list[p]] {
      var i :| 0 <= i < |list| && list[i] == n;
      if p < i { assert k.keys[list[p]] < k.keys[list[i]]; }
    }
    forall n | n in list && n < |k.keys| && k.keys[n] < target && p > 0 ensures k.keys[n] <= k.keys[list[p - 1]] {
      var i :| 0 <= i < |list| && list[i] == n;
      if i < p - 1 { assert k.keys[list[i]] < k.keys[list[p - 1]]; }
    }
  }

  lemma EndAnswers(k: Links, list: seq<nat>, x: nat)
    requires LevelOk(k, list, 0) && OnLevel(list, x) && HasLevel(k, x, 0) && k.next[x][0] == Null
    ensures LastOf(k, list, To(x))
  {
    var p := Place(list, x);
    assert HasLevel(k, NodeAt(list, p), 0);
    assert p == |list|;
    forall n | n in list && n < |k.keys| && p > 0 ensures k.keys[n] <= k.keys[list[p - 1]] {
      var i :| 0 <= i < |list| && list[i] == n;
      if i < p - 1 { assert k.keys[list[i]] < k.keys[list[p - 1]]; }
    }
  }

  // The result is right for the list as it stands at the reader's last load, whatever
  // height the reader started from and whatever was inserted meanwhile.
  lemma FinalLoadIsRight(s: State, r: nat)
    requires Inv(s) && Permitted(s, Load(r)) && Next(s, Load(r)).readers[r].Finished?
    ensures Answers(s.k, s.lists[0], s.readers[r].goal, Next(s, Load(r)).readers[r].result)
  {
    hide PhaseOk;
    var reader := s.readers[r];
    assert ReaderOk(s.k, s.lists, reader);
    assert LevelOk(s.k, s.lists[0], 0);
    LinkIsThere(s.k, s.lists[0], 0, reader.x);
    if reader.goal.Last? {
      EndAnswers(s.k, s.lists[0], reader.x);
    } else {
      DividedAnswers(s.k, s.lists[0], reader.x, reader.goal.target);
    }
  }

  // ---------- Whole runs ----------

  // A new list: a head with null links.
  function Empty(): State {
    State(Links([0.0], [seq(MAX_HEIGHT, _ => Null)], 1), seq(MAX_HEIGHT, _ => []), Idle, [])
  }

  predicate Run(steps: seq<Step>)
    decreases |steps|, 0
  {
    steps == [] || (Run(steps[..|steps| - 1]) && Permitted(After(steps[..|steps| - 1]), steps[|steps| - 1]))
  }

  function After(steps: seq<Step>): State
    requires Run(steps)
    decreases |steps|, 1
  {
    if steps == [] then Empty() else Next(After(steps[..|steps| - 1]), steps[|steps| - 1])
  }

  lemma EmptyIsOk()
    ensures Inv(Empty())
  {
  }

  lemma {:induction false} RunsKeepInv(steps: seq<Step>)
    requires Run(steps)
    ensures Inv(After(steps))
  {
    hide Inv, Permitted, Next;
    if steps == [] {
      EmptyIsOk();
    } else {
      RunsKeepInv(steps[..|steps| - 1]);
      NextKeepsInv(After(steps[..|steps| - 1]), steps[|steps| - 1]);
    }
  }

  // In every run, between any two stores, the levels are sorted and nested.
  lemma LevelsAreNested(steps: seq<Step>)
    requires Run(steps)
    ensures Nested(After(steps).k, After(steps).lists)
  {
    hide Run, After;
    RunsKeepInv(steps);
  }

  // In every run, a reader that finishes gives the right answer for the list of that moment.
  lemma ReadersAreRight(steps: seq<Step>, r: nat)
    requires Run(steps) && Permitted(After(steps), Load(r)) && Next(After(steps), Load(r)).readers[r].Finished?
    ensures |After(steps).lists| == MAX_HEIGHT
    ensures Answers(After(steps).k, After(steps).lists[0], After(steps).readers[r].goal, Next(After(steps), Load(r)).readers[r].result)
  {
    hide Run, After;
    RunsKeepInv(steps);
    FinalLoadIsRight(After(steps), r);
  }

  // Once a key is in the list it stays: nothing that was there before a read began can be
  // missing from the list that the read is answered from.
  lemma {:induction false} RunsGrow(steps: seq<Step>, i: nat)
    requires Run(steps) && i <= |steps|
    ensures Run(steps[..i]) && Grows(After(steps[..i]), After(steps))
  {
    if i == |steps| {
      assert steps[..i] == steps;
    } else {
      var before := steps[..|steps| - 1];
      RunsGrow(before, i);
      assert before[..i] == steps[..i];
      RunsKeepInv(before);
      NextKeepsInv(After(before), steps[|steps| - 1]);
    }
  }
}
