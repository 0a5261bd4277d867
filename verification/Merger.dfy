// The merging iterator (table/merger.cc): a cursor over the sorted union of its children.
module Merger {
  import opened DbFormat
  import opened Tables

  // A child iterator: a position in a sorted run, |run| when it is not valid.
  datatype Cursor = Cursor(run: seq<Entry>, pos: nat) {
    predicate Valid() { pos < |run| }

    function Key(): InternalKey
      requires Valid()
    {
      run[pos].key
    }

    function SeekToFirst(): Cursor { Cursor(run, 0) }

    function SeekToLast(): Cursor { Cursor(run, if run == [] then 0 else |run| - 1) }

    function Seek(target: InternalKey): Cursor { Cursor(run, SeekIndex(run, target)) }

    function Next(): Cursor
      requires Valid()
    {
      Cursor(run, pos + 1)
    }

    function Prev(): Cursor
      requires Valid()
    {
      Cursor(run, if pos == 0 then |run| else pos - 1)
    }
  }

  datatype Direction = Forward | Reverse

  predicate InRuns(children: seq<Cursor>, e: Entry) {
    exists i :: 0 <= i < |children| && e in children[i].run
  }

  // merged is the sorted union of the children's runs, and no key is in two of them.
  ghost predicate Union(children: seq<Cursor>, merged: seq<Entry>) {
    && Sorted(merged)
    && (forall i :: 0 <= i < |children| ==> Sorted(children[i].run) && children[i].pos <= |children[i].run|)
    && (forall e :: e in merged <==> InRuns(children, e))
    && (forall i, j, a, b :: 0 <= i < j < |children| && 0 <= a < |children[i].run| && 0 <= b < |children[j].run|
          ==> children[i].run[a].key != children[j].run[b].key)
  }

  // Forward position: the child is at its first entry at or after merged[p].
  ghost predicate AtOrAfter(c: Cursor, merged: seq<Entry>, p: nat)
    requires p <= |merged|
  {
    forall j :: 0 <= j < |c.run| ==> (j < c.pos <==> p == |merged| || Less(c.run[j].key, merged[p].key))
  }

  // Reverse position, for merged[..p]: the child is at its last entry in merged[..p].
  ghost predicate AtOrBefore(c: Cursor, merged: seq<Entry>, p: nat)
    requires p <= |merged|
  {
    if c.Valid() then
      forall j :: 0 <= j < |c.run| ==> (j <= c.pos <==> p == |merged| || Less(c.run[j].key, merged[p].key))
    else
      forall j :: 0 <= j < |c.run| ==> p < |merged| && !Less(c.run[j].key, merged[p].key)
  }

  // Moving the boundary over merged[p] changes the side of that entry only.
  lemma NextBoundary(merged: seq<Entry>, p: nat, e: Entry)
    requires Sorted(merged) && p < |merged| && e in merged
    ensures (p + 1 == |merged| || Less(e.key, merged[p + 1].key)) <==> Less(e.key, merged[p].key) || e == merged[p]
  {
    var i :| 0 <= i < |merged| && merged[i] == e;
    if i < p { assert Less(merged[i].key, merged[p].key); }
    if p < i { assert Less(merged[p].key, merged[i].key); }
    if p + 1 < i { assert Less(merged[p + 1].key, merged[i].key); }
    if p + 1 < |merged| { assert Less(merged[p].key, merged[p + 1].key); }
    if i < p + 1 < |merged| { assert Less(merged[i].key, merged[p + 1].key); }
  }

  lemma UnionKeepsRuns(children: seq<Cursor>, merged: seq<Entry>, moved: seq<Cursor>)
    requires Union(children, merged)
    requires |moved| == |children|
    requires forall i :: 0 <= i < |moved| ==> moved[i].run == children[i].run && moved[i].pos <= |moved[i].run|
    ensures Union(moved, merged)
  {
    assert forall e :: InRuns(moved, e) <==> InRuns(children, e);
  }

  // A child that stands on merged[p] is at its first entry at or after it, and at its
  // last entry at or before it.
  lemma StandsOn(c: Cursor, merged: seq<Entry>, p: nat)
    requires Sorted(c.run) && c.Valid() && Sorted(merged) && p < |merged| && c.run[c.pos] == merged[p]
    requires forall e :: e in c.run ==> e in merged
    ensures AtOrAfter(c, merged, p) && AtOrBefore(c, merged, p + 1)
  {
    forall j | 0 <= j < |c.run| ensures j < c.pos <==> Less(c.run[j].key, merged[p].key) {
      if j < c.pos { assert Less(c.run[j].key, c.run[c.pos].key); }
      if c.pos < j { assert Less(c.run[c.pos].key, c.run[j].key); }
    }
    forall j | 0 <= j < |c.run|
      ensures j <= c.pos <==> p + 1 == |merged| || Less(c.run[j].key, merged[p + 1].key)
    {
      assert c.run[j] in c.run;
      NextBoundary(merged, p, c.run[j]);
      if c.pos < j { assert Less(c.run[c.pos].key, c.run[j].key); }
    }
  }

  lemma SeekIsAtOrAfter(c: Cursor, merged: seq<Entry>, p: nat, target: InternalKey)
    requires Sorted(c.run) && Sorted(merged) && p <= |merged|
    requires forall e :: e in c.run ==> e in merged
    requires forall j :: 0 <= j < |merged| ==> (j < p <==> Less(merged[j].key, target))
    ensures AtOrAfter(c.Seek(target), merged, p)
  {
    var s := c.Seek(target);
    forall j | 0 <= j < |s.run| ensures j < s.pos <==> p == |merged| || Less(s.run[j].key, merged[p].key) {
      assert s.run[j] in c.run;
      var m :| 0 <= m < |merged| && merged[m] == s.run[j];
      if s.pos < j { assert Less(s.run[s.pos].key, s.run[j].key); }
      if m < p < |merged| { assert Less(merged[m].key, merged[p].key); }
      if p < m { assert Less(merged[p].key, merged[m].key); }
    }
  }

  // Over merged[p], a child either steps or does not have that entry.
  lemma ForwardOver(c: Cursor, merged: seq<Entry>, p: nat)
    requires Sorted(c.run) && Sorted(merged) && p < |merged| && c.pos <= |c.run|
    requires forall e :: e in c.run ==> e in merged
    requires AtOrAfter(c, merged, p)
    ensures c.Valid() && c.run[c.pos] == merged[p] ==> AtOrAfter(c.Next(), merged, p + 1)
    ensures !(c.Valid() && c.run[c.pos] == merged[p]) ==> AtOrAfter(c, merged, p + 1)
  {
    forall j | 0 <= j < |c.run|
      ensures (p + 1 == |merged| || Less(c.run[j].key, merged[p + 1].key)) <==> j < c.pos || c.run[j] == merged[p]
    {
      assert c.run[j] in c.run;
      NextBoundary(merged, p, c.run[j]);
    }
    assert forall j :: c.pos < j < |c.run| ==> Less(c.run[c.pos].key, c.run[j].key);
    if c.Valid() && c.run[c.pos] == merged[p] {
      var n := c.Next();
      forall j | 0 <= j < |n.run|
        ensures j < n.pos <==> p + 1 == |merged| || Less(n.run[j].key, merged[p + 1].key)
      {
        assert n.run[j] == c.run[j];
      }
      assert AtOrAfter(n, merged, p + 1);
    }
  }

  lemma BackwardOver(c: Cursor, merged: seq<Entry>, p: nat)
    requires Sorted(c.run) && Sorted(merged) && p < |merged| && c.pos <= |c.run|
    requires forall e :: e in c.run ==> e in merged
    requires AtOrBefore(c, merged, p + 1)
    ensures c.Valid() && c.run[c.pos] == merged[p] ==> AtOrBefore(c.Prev(), merged, p)
    ensures !(c.Valid() && c.run[c.pos] == merged[p]) ==> AtOrBefore(c, merged, p)
  {
    forall j | 0 <= j < |c.run|
      ensures (p + 1 == |merged| || Less(c.run[j].key, merged[p + 1].key)) <==> Less(c.run[j].key, merged[p].key) || c.run[j] == merged[p]
    {
      assert c.run[j] in c.run;
      NextBoundary(merged, p, c.run[j]);
    }
    if c.Valid() {
      assert forall j :: 0 <= j < c.pos ==> Less(c.run[j].key, c.run[c.pos].key);
    }
  }

  // A child at its first entry from merged[p] on, moved back by one.
  lemma StepBackAfter(c: Cursor, merged: seq<Entry>, p: nat)
    requires Sorted(c.run) && p <= |merged| && c.pos <= |c.run|
    requires AtOrAfter(c, merged, p)
    ensures AtOrBefore(if c.Valid() then c.Prev() else c.SeekToLast(), merged, p)
  {
    if p == |merged| { PastTheEnd(c, merged); }
  }

  lemma SideOf(c: Cursor, merged: seq<Entry>, p: nat, j: nat)
    requires p <= |merged| && j < |c.run| && AtOrAfter(c, merged, p)
    ensures j < c.pos <==> p == |merged| || Less(c.run[j].key, merged[p].key)
  {
    var e := c.run[j];
  }

  lemma PastTheEnd(c: Cursor, merged: seq<Entry>)
    requires AtOrAfter(c, merged, |merged|)
    ensures !c.Valid()
  {
    if c.pos < |c.run| { SideOf(c, merged, |merged|, c.pos); }
  }

  // The smallest of the children's keys is the next one of the union.
  lemma SmallestIsNext(children: seq<Cursor>, merged: seq<Entry>, p: nat)
    requires Union(children, merged) && p <= |merged|
    requires forall i :: 0 <= i < |children| ==> AtOrAfter(children[i], merged, p)
    ensures p == |merged| ==> forall i :: 0 <= i < |children| ==> !children[i].Valid()
    ensures p < |merged| ==> exists i :: 0 <= i < |children| && children[i].Valid() && children[i].run[children[i].pos] == merged[p]
    ensures p < |merged| ==> forall i :: 0 <= i < |children| && children[i].Valid() ==> !Less(children[i].Key(), merged[p].key)
  {
    if p < |merged| {
      assert merged[p] in merged;
      var i :| 0 <= i < |children| && merged[p] in children[i].run;
      var j :| 0 <= j < |children[i].run| && children[i].run[j] == merged[p];
      var c := children[i];
      assert !(j < c.pos);
      SortedAt(c.run, c.pos, j);
    } else {
      forall i | 0 <= i < |children| ensures !children[i].Valid() {
        PastTheEnd(children[i], merged);
      }
    }
  }

  // The largest of the children's keys is the previous one.
  lemma LargestIsPrevious(children: seq<Cursor>, merged: seq<Entry>, p: nat)
    requires Union(children, merged) && p <= |merged|
    requires forall i :: 0 <= i < |children| ==> AtOrBefore(children[i], merged, p)
    ensures p == 0 ==> forall i :: 0 <= i < |children| ==> !children[i].Valid()
    ensures p > 0 ==> exists i :: 0 <= i < |children| && children[i].Valid() && children[i].run[children[i].pos] == merged[p - 1]
    ensures p > 0 ==> forall i :: 0 <= i < |children| && children[i].Valid() ==> !Less(merged[p - 1].key, children[i].Key())
  {
    forall i | 0 <= i < |children| && children[i].Valid()
      ensures p > 0 && !Less(merged[p - 1].key, children[i].Key())
    {
      var e := children[i].run[children[i].pos];
      assert e in children[i].run && e in merged;
      var m :| 0 <= m < |merged| && merged[m] == e;
      assert forall k :: p < k < |merged| ==> Less(merged[p].key, merged[k].key);
      if m < p - 1 { assert Less(merged[m].key, merged[p - 1].key); }
    }
    if p > 0 {
      assert merged[p - 1] in merged;
      var i :| 0 <= i < |children| && merged[p - 1] in children[i].run;
      var j :| 0 <= j < |children[i].run| && children[i].run[j] == merged[p - 1];
      var c := children[i];
      if p < |merged| { assert Less(merged[p - 1].key, merged[p].key); }
      assert c.Valid() && j <= c.pos;
      assert forall k :: 0 <= k < c.pos ==> Less(c.run[k].key, c.run[c.pos].key);
    }
  }

  // The selection loop of FindSmallest: the first of the children with the smallest key.
  method SmallestChild(children: seq<Cursor>) returns (smallest: Option<nat>)
    ensures smallest.None? ==> forall i :: 0 <= i < |children| ==> !children[i].Valid()
    ensures smallest.Some? ==>
      && smallest.value < |children| && children[smallest.value].Valid()
      && (forall i :: 0 <= i < |children| && children[i].Valid() ==> !Less(children[i].Key(), children[smallest.value].Key()))
      && (forall i :: 0 <= i < smallest.value && children[i].Valid() ==> Less(children[smallest.value].Key(), children[i].Key()))
  {
    smallest := None;
    for i := 0 to |children|
      invariant smallest.None? ==> forall j :: 0 <= j < i ==> !children[j].Valid()
      invariant smallest.Some? ==>
        && smallest.value < i && children[smallest.value].Valid()
        && (forall j :: 0 <= j < i && children[j].Valid() ==> !Less(children[j].Key(), children[smallest.value].Key()))
        && (forall j :: 0 <= j < smallest.value && children[j].Valid() ==> Less(children[smallest.value].Key(), children[j].Key()))
    {
      if children[i].Valid() {
        if smallest.None? {
          smallest := Some(i);
        } else if Less(children[i].Key(), children[smallest.value].Key()) {
          smallest := Some(i);
        }
      }
    }
  }

  class MergingIterator {
    var children: seq<Cursor>
    var current: Option<nat>
    var direction: Direction
    ghost var merged: seq<Entry>
    // The position in the sorted union; |merged| when the iterator is not valid.
    ghost var at: nat

    ghost predicate Ok()
      reads this
    {
      var inRange := at <= |merged| && (current.None? <==> at == |merged|);
      var standing := current.Some? ==> Standing(children, merged, at, current.value);
      inRange && standing && Union(children, merged) && (current.Some? ==> Aligned())
    }

    ghost predicate Aligned()
      requires at < |merged|
      reads this
    {
      forall i :: 0 <= i < |children| ==>
        if direction.Forward? then AtOrAfter(children[i], merged, at) else AtOrBefore(children[i], merged, at + 1)
    }

    predicate Valid()
      reads this
    {
      current.Some?
    }

    constructor (runs: seq<seq<Entry>>, ghost union: seq<Entry>)
      requires Union(seq(|runs|, i requires 0 <= i < |runs| => Cursor(runs[i], |runs[i]|)), union)
      ensures Ok() && !Valid() && merged == union
      ensures |children| == |runs| && forall i :: 0 <= i < |runs| ==> children[i].run == runs[i]
    {
      children := seq(|runs|, i requires 0 <= i < |runs| => Cursor(runs[i], |runs[i]|));
      current := None;
      direction := Forward;
      merged := union;
      at := |union|;
    }

    // key() and value()
    method Current() returns (e: Entry)
      requires Ok() && Valid()
      ensures e == merged[at]
    {
      e := children[current.value].run[children[current.value].pos];
    }

    // The first child with the smallest key becomes the current one.
    method FindSmallest(ghost p: nat)
      requires Union(children, merged) && p <= |merged|
      requires forall i :: 0 <= i < |children| ==> AtOrAfter(children[i], merged, p)
      modifies this`current, this`at, this`direction
      ensures Ok() && at == p && direction == Forward
    {
      var smallest := SmallestChild(children);
      current, direction, at := smallest, Forward, p;
      SmallestIsNext(children, merged, p);
      if p < |merged| { LeastStandsOn(children, merged, p, smallest.value); }
    }

    // The last child with the largest key becomes the current one.
    method FindLargest(ghost p: nat)
      requires Union(children, merged) && p <= |merged|
      requires forall i :: 0 <= i < |children| ==> AtOrBefore(children[i], merged, p)
      modifies this`current, this`at, this`direction
      ensures Ok() && direction == Reverse
      ensures at == if p == 0 then |merged| else p - 1
    {
      var largest: Option<nat> := None;
      var i := |children|;
      while i > 0
        invariant 0 <= i <= |children|
        invariant largest.Some? ==> largest.value < |children| && children[largest.value].Valid()
        invariant largest.None? ==> forall j :: i <= j < |children| ==> !children[j].Valid()
        invariant largest.Some? ==> forall j :: i <= j < |children| && children[j].Valid() ==> !Less(children[largest.value].Key(), children[j].Key())
      {
        i := i - 1;
        if children[i].Valid() {
          if largest.None? {
            largest := Some(i);
          } else if Less(children[largest.value].Key(), children[i].Key()) {
            largest := Some(i);
          }
        }
      }
      current, direction, at := largest, Reverse, if p == 0 then |merged| else p - 1;
      LargestIsPrevious(children, merged, p);
      if p > 0 { GreatestStandsOn(children, merged, p - 1, largest.value); }
    }

    method SeekToFirst()
      requires Ok()
      modifies this
      ensures Ok() && merged == old(merged) && at == 0
    {
      ghost var before := children;
      for i := 0 to |children|
        modifies this`children
        invariant |children| == |before|
        invariant forall j :: 0 <= j < |children| ==> children[j] == if j < i then before[j].SeekToFirst() else before[j]
      {
        children := children[i := children[i].SeekToFirst()];
      }
      UnionKeepsRuns(before, merged, children);
      FirstIsAtOrAfter(children, merged);
      FindSmallest(0);
    }

    method SeekToLast()
      requires Ok()
      modifies this
      ensures Ok() && merged == old(merged)
      ensures at == if merged == [] then 0 else |merged| - 1
    {
      ghost var before := children;
      for i := 0 to |children|
        modifies this`children
        invariant |children| == |before|
        invariant forall j :: 0 <= j < |children| ==> children[j] == if j < i then before[j].SeekToLast() else before[j]
      {
        children := children[i := children[i].SeekToLast()];
      }
      UnionKeepsRuns(before, merged, children);
      FindLargest(|merged|);
    }

    method Seek(target: InternalKey)
      requires Ok()
      modifies this
      ensures Ok() && merged == old(merged) && at == SeekIndex(merged, target)
    {
      ghost var before := children;
      for i := 0 to |children|
        modifies this`children
        invariant |children| == |before|
        invariant forall j :: 0 <= j < |children| ==> children[j] == if j < i then before[j].Seek(target) else before[j]
      {
        children := children[i := children[i].Seek(target)];
      }
      UnionKeepsRuns(before, merged, children);
      SeekAll(before, merged, target, children);
      FindSmallest(SeekIndex(merged, target));
    }

    method Next()
      requires Ok() && Valid()
      modifies this
      ensures Ok() && merged == old(merged) && at == old(at) + 1
    {
      var c := current.value;
      if direction != Forward {
        ghost var before := children;
        var key := children[c].Key();
        for i := 0 to |children|
          modifies this`children
          invariant |children| == |before| && c < |children| && children[c] == before[c]
          invariant forall j :: 0 <= j < |children| ==> children[j] == if j < i && j != c then AfterKey(before[j], key) else before[j]
        {
          if i != c {
            children := children[i := AfterKey(children[i], key)];
          }
        }
        SwitchForward(before, merged, at, c, children);
        direction := Forward;
      }
      ghost var before := children;
      children := children[c := children[c].Next()];
      StepForward(before, merged, at, c, children);
      FindSmallest(at + 1);
    }

    method Prev()
      requires Ok() && Valid()
      modifies this
      ensures Ok() && merged == old(merged)
      ensures at == if old(at) == 0 then |merged| else old(at) - 1
    {
      var c := current.value;
      if direction != Reverse {
        ghost var before := children;
        var key := children[c].Key();
        for i := 0 to |children|
          modifies this`children
          invariant |children| == |before| && c < |children| && children[c] == before[c]
          invariant forall j :: 0 <= j < |children| ==> children[j] == if j < i && j != c then BeforeKey(before[j], key) else before[j]
        {
          if i != c {
            children := children[i := BeforeKey(children[i], key)];
          }
        }
        SwitchBackward(before, merged, at, c, children);
        direction := Reverse;
      }
      ghost var before := children;
      children := children[c := children[c].Prev()];
      StepBackward(before, merged, at, c, children);
      FindLargest(at);
    }
  }

  // A child positioned after the key, for a switch to moving forward.
  function AfterKey(c: Cursor, key: InternalKey): Cursor {
    var s := c.Seek(key);
    if s.Valid() && s.Key() == key then s.Next() else s
  }

  // A child positioned before the key, for a switch to moving backward.
  function BeforeKey(c: Cursor, key: InternalKey): Cursor {
    var s := c.Seek(key);
    if s.Valid() then s.Prev() else s.SeekToLast()
  }

  lemma SeekEntryOfUnion(children: seq<Cursor>, merged: seq<Entry>, at: nat, i: nat)
    requires Union(children, merged) && at < |merged| && i < |children|
    ensures AtOrAfter(children[i].Seek(merged[at].key), merged, at)
  {
    forall j | 0 <= j < |merged| ensures j < at <==> Less(merged[j].key, merged[at].key) {
      SortedAt(merged, j, at);
    }
    assert forall e :: e in children[i].run ==> InRuns(children, e);
    SeekIsAtOrAfter(children[i], merged, at, merged[at].key);
  }

  lemma OnlyOneStands(children: seq<Cursor>, merged: seq<Entry>, at: nat, c: nat, i: nat, j: nat)
    requires Union(children, merged) && Standing(children, merged, at, c)
    requires i < |children| && i != c && j < |children[i].run|
    ensures children[i].run[j].key != merged[at].key
  {
  }

  lemma SwitchForward(before: seq<Cursor>, merged: seq<Entry>, at: nat, c: nat, after: seq<Cursor>)
    requires Union(before, merged) && Standing(before, merged, at, c) && |after| == |before|
    requires forall i :: 0 <= i < |before| ==> after[i] == if i != c then AfterKey(before[i], merged[at].key) else before[i]
    ensures Union(after, merged) && Standing(after, merged, at, c)
    ensures forall i :: 0 <= i < |after| ==> AtOrAfter(after[i], merged, at)
  {
    UnionKeepsRuns(before, merged, after);
    forall i | 0 <= i < |after| ensures AtOrAfter(after[i], merged, at) {
      if i != c {
        var s := before[i].Seek(merged[at].key);
        SeekEntryOfUnion(before, merged, at, i);
        if s.Valid() { OnlyOneStands(before, merged, at, c, i, s.pos); }
      } else {
        assert forall e :: e in before[i].run ==> InRuns(before, e);
        StandsOn(before[c], merged, at);
      }
    }
  }

  lemma SwitchBackward(before: seq<Cursor>, merged: seq<Entry>, at: nat, c: nat, after: seq<Cursor>)
    requires Union(before, merged) && Standing(before, merged, at, c) && |after| == |before|
    requires forall i :: 0 <= i < |before| ==> after[i] == if i != c then BeforeKey(before[i], merged[at].key) else before[i]
    ensures Union(after, merged) && Standing(after, merged, at, c)
    ensures forall i :: 0 <= i < |after| ==> AtOrBefore(after[i], merged, at + 1)
  {
    UnionKeepsRuns(before, merged, after);
    forall i | 0 <= i < |after| ensures AtOrBefore(after[i], merged, at + 1) {
      assert forall e :: e in before[i].run ==> InRuns(before, e);
      if i != c {
        var s := before[i].Seek(merged[at].key);
        SeekEntryOfUnion(before, merged, at, i);
        if s.Valid() { OnlyOneStands(before, merged, at, c, i, s.pos); }
        ForwardOver(s, merged, at);
        StepBackAfter(s, merged, at + 1);
      } else {
        StandsOn(before[c], merged, at);
      }
    }
  }

  lemma StepForward(before: seq<Cursor>, merged: seq<Entry>, at: nat, c: nat, after: seq<Cursor>)
    requires Union(before, merged) && Standing(before, merged, at, c)
    requires forall i :: 0 <= i < |before| ==> AtOrAfter(before[i], merged, at)
    requires after == before[c := before[c].Next()]
    ensures Union(after, merged)
    ensures forall i :: 0 <= i < |after| ==> AtOrAfter(after[i], merged, at + 1)
  {
    UnionKeepsRuns(before, merged, after);
    forall i | 0 <= i < |after| ensures AtOrAfter(after[i], merged, at + 1) {
      assert forall e :: e in before[i].run ==> InRuns(before, e);
      ForwardOver(before[i], merged, at);
      if i != c && before[i].Valid() { OnlyOneStands(before, merged, at, c, i, before[i].pos); }
    }
  }

  lemma StepBackward(before: seq<Cursor>, merged: seq<Entry>, at: nat, c: nat, after: seq<Cursor>)
    requires Union(before, merged) && Standing(before, merged, at, c)
    requires forall i :: 0 <= i < |before| ==> AtOrBefore(before[i], merged, at + 1)
    requires after == before[c := before[c].Prev()]
    ensures Union(after, merged)
    ensures forall i :: 0 <= i < |after| ==> AtOrBefore(after[i], merged, at)
  {
    UnionKeepsRuns(before, merged, after);
    forall i | 0 <= i < |after| ensures AtOrBefore(after[i], merged, at) {
      assert forall e :: e in before[i].run ==> InRuns(before, e);
      BackwardOver(before[i], merged, at);
      if i != c && before[i].Valid() { OnlyOneStands(before, merged, at, c, i, before[i].pos); }
    }
  }

  // The child holds the entry at this position of the union.
  ghost predicate Standing(children: seq<Cursor>, merged: seq<Entry>, at: nat, c: nat) {
    c < |children| && at < |merged| && children[c].Valid() && children[c].run[children[c].pos] == merged[at]
  }

  lemma SameKeySameEntry(children: seq<Cursor>, merged: seq<Entry>, p: nat, c: nat)
    requires Union(children, merged) && p < |merged| && c < |children| && children[c].Valid()
    requires !Less(children[c].Key(), merged[p].key) && !Less(merged[p].key, children[c].Key())
    ensures Standing(children, merged, p, c)
  {
    var e := children[c].run[children[c].pos];
    assert e in children[c].run && e in merged;
    var m :| 0 <= m < |merged| && merged[m] == e;
    SortedAt(merged, m, p);
  }

  lemma LeastStandsOn(children: seq<Cursor>, merged: seq<Entry>, p: nat, c: nat)
    requires Union(children, merged) && p < |merged| && c < |children| && children[c].Valid()
    requires exists i :: 0 <= i < |children| && children[i].Valid() && children[i].run[children[i].pos] == merged[p]
    requires forall i :: 0 <= i < |children| && children[i].Valid() ==> !Less(children[i].Key(), merged[p].key)
    requires forall i :: 0 <= i < |children| && children[i].Valid() ==> !Less(children[i].Key(), children[c].Key())
    ensures Standing(children, merged, p, c)
  {
    SameKeySameEntry(children, merged, p, c);
  }

  lemma GreatestStandsOn(children: seq<Cursor>, merged: seq<Entry>, p: nat, c: nat)
    requires Union(children, merged) && p < |merged| && c < |children| && children[c].Valid()
    requires exists i :: 0 <= i < |children| && children[i].Valid() && children[i].run[children[i].pos] == merged[p]
    requires forall i :: 0 <= i < |children| && children[i].Valid() ==> !Less(merged[p].key, children[i].Key())
    requires forall i :: 0 <= i < |children| && children[i].Valid() ==> !Less(children[c].Key(), children[i].Key())
    ensures Standing(children, merged, p, c)
  {
    SameKeySameEntry(children, merged, p, c);
  }

  lemma FirstIsAtOrAfter(children: seq<Cursor>, merged: seq<Entry>)
    requires Union(children, merged) && forall i :: 0 <= i < |children| ==> children[i].pos == 0
    ensures forall i :: 0 <= i < |children| ==> AtOrAfter(children[i], merged, 0)
  {
    forall i, j | 0 <= i < |children| && 0 <= j < |children[i].run|
      ensures merged != [] && !Less(children[i].run[j].key, merged[0].key)
    {
      assert children[i].run[j] in children[i].run && children[i].run[j] in merged;
      var m :| 0 <= m < |merged| && merged[m] == children[i].run[j];
      SortedAt(merged, 0, m);
    }
    forall i | 0 <= i < |children| ensures AtOrAfter(children[i], merged, 0) {
      if children[i].run != [] {
        var e := children[i].run[0];
      }
    }
  }

  lemma SeekAll(before: seq<Cursor>, merged: seq<Entry>, target: InternalKey, moved: seq<Cursor>)
    requires Union(before, merged) && |moved| == |before|
    requires forall i :: 0 <= i < |before| ==> moved[i] == before[i].Seek(target)
    ensures forall i :: 0 <= i < |moved| ==> AtOrAfter(moved[i], merged, SeekIndex(merged, target))
  {
    var p := SeekIndex(merged, target);
    forall j | 0 <= j < |merged| ensures j < p <==> Less(merged[j].key, target) {
      if p < j { assert Less(merged[p].key, merged[j].key); }
    }
    forall i | 0 <= i < |moved| ensures AtOrAfter(moved[i], merged, p) {
      assert forall e :: e in before[i].run ==> InRuns(before, e);
      SeekIsAtOrAfter(before[i], merged, p, target);
    }
  }
}
