// The skip list as an object: the searches and Insert (db/skiplist.h), run by one party.
module SkipListObject {
  import opened SkipLists
  import opened SkipListReaders

  // The keys of a level, in the order of its list.
  function KeysOf(k: Links, list: seq<nat>): (r: seq<Key>)
    requires forall i :: 0 <= i < |list| ==> list[i] < |k.keys|
    ensures |r| == |list|
  {
    seq(|list|, i requires 0 <= i < |list| => k.keys[list[i]])
  }

  lemma InBounds(k: Links, lists: Lists)
    requires SkipLists.Ok(k, lists)
    ensures forall i :: 0 <= i < |lists[0]| ==> lists[0][i] < |k.keys|
  {
    assert LevelOk(k, lists[0], 0);
  }

  lemma LoadIsSafe(k: Links, lists: Lists, x: nat, level: nat)
    requires SkipLists.Ok(k, lists) && level < MAX_HEIGHT && OnLevel(lists[level], x)
    ensures HasLevel(k, x, level) && !k.next[x][level].Uninitialized?
    ensures k.next[x][level].To? ==> k.next[x][level].node in lists[level] && k.next[x][level].node < |k.keys|
    ensures LevelOk(k, lists[level], level)
  {
    assert LevelOk(k, lists[level], level);
    LinkIsThere(k, lists[level], level, x);
  }

  // Following a link shortens the rest of the level's list.
  lemma MovesForward(k: Links, list: seq<nat>, level: nat, x: nat)
    requires LevelOk(k, list, level) && OnLevel(list, x) && HasLevel(k, x, level) && k.next[x][level].To?
    ensures Place(list, k.next[x][level].node) == Place(list, x) + 1
  {
    var p := Place(list, x);
    assert HasLevel(k, NodeAt(list, p), level);
    var y := list[p];
    assert NodeAt(list, p + 1) == y;
    NodesDiffer(k, list, p + 1, Place(list, y));
  }

  lemma LowerLevel(k: Links, lists: Lists, x: nat, level: nat)
    requires SkipLists.Ok(k, lists) && 0 < level < MAX_HEIGHT && OnLevel(lists[level], x)
    ensures OnLevel(lists[level - 1], x)
  {
    assert Subset(lists[level - 1 + 1], lists[level - 1]);
  }

  lemma FoundKey(k: Links, lists: Lists, key: Key, link: Link)
    requires SkipLists.Ok(k, lists) && FirstFrom(k, lists[0], key, link)
    requires forall i :: 0 <= i < |lists[0]| ==> lists[0][i] < |k.keys|
    ensures (link.To? && link.node < |k.keys| && k.keys[link.node] == key) <==> key in KeysOf(k, lists[0])
  {
    var list := lists[0];
    if key in KeysOf(k, list) {
      var i :| 0 <= i < |list| && KeysOf(k, list)[i] == key;
      assert list[i] in list;
    }
    if link.To? && k.keys[link.node] == key {
      var i :| 0 <= i < |list| && list[i] == link.node;
      assert KeysOf(k, list)[i] == key;
    }
  }

  // Above the height of the list, the head is the predecessor of every key.
  lemma SearchIsComplete(k: Links, lists: Lists, key: Key, prev: seq<nat>)
    requires SkipLists.Ok(k, lists) && |prev| == MAX_HEIGHT
    requires forall l :: k.maxHeight <= l < MAX_HEIGHT ==> prev[l] == HEAD
    requires forall l :: 0 <= l < k.maxHeight ==> Predecessor(k, lists[l], l, prev[l], key)
    requires forall i :: 0 <= i < |lists[0]| ==> lists[0][i] < |k.keys|
    requires key !in KeysOf(k, lists[0])
    ensures SearchResult(k, lists, key, prev)
  {
    forall l | k.maxHeight <= l < MAX_HEIGHT ensures Predecessor(k, lists[l], l, prev[l], key) {
      assert LevelOk(k, lists[l], l) && lists[l] == [] && HasLevel(k, NodeAt(lists[l], 0), l);
    }
    forall n | n in lists[0] ensures n < |k.keys| && k.keys[n] != key {
      var i :| 0 <= i < |lists[0]| && lists[0][i] == n;
      assert KeysOf(k, lists[0])[i] == k.keys[n];
    }
  }

  lemma InsertedKeys(before: Links, after: Links, list: seq<nat>, p: nat, n: nat)
    requires p <= |list| && before.keys <= after.keys && n < |after.keys|
    requires forall i :: 0 <= i < |list| ==> list[i] < |before.keys|
    ensures forall i :: 0 <= i < |InsertAt(list, p, n)| ==> InsertAt(list, p, n)[i] < |after.keys|
    ensures KeysOf(after, InsertAt(list, p, n)) == KeysOf(before, list)[..p] + [after.keys[n]] + KeysOf(before, list)[p..]
  {
  }

  class SkipList {
    var keys: seq<Key>
    var next: seq<seq<Link>>
    var maxHeight: nat
    ghost var lists: Lists

    function State(): Links
      reads this
    {
      Links(keys, next, maxHeight)
    }

    ghost predicate Ok()
      reads this
    {
      SkipLists.Ok(State(), lists)
    }

    // What the list holds, in order.
    ghost function Contents(): seq<Key>
      requires Ok()
      reads this
    {
      InBounds(State(), lists);
      KeysOf(State(), lists[0])
    }

    constructor ()
      ensures Ok() && Contents() == []
    {
      keys, next, maxHeight := [0.0], [seq(MAX_HEIGHT, _ => Null)], 1;
      lists := seq(MAX_HEIGHT, _ => []);
      new;
      EmptyIsOk();
    }

    method FindGreaterOrEqual(key: Key) returns (result: Link, prev: seq<nat>)
      requires Ok()
      ensures FirstFrom(State(), lists[0], key, result)
      ensures |prev| == MAX_HEIGHT && forall l :: maxHeight <= l < MAX_HEIGHT ==> prev[l] == HEAD
      ensures forall l :: 0 <= l < maxHeight ==> Predecessor(State(), lists[l], l, prev[l], key)
    {
      prev := seq(MAX_HEIGHT, _ => HEAD);
      var x := HEAD;
      var level := maxHeight - 1;
      ghost var k := State();
      while true
        invariant 0 <= level < maxHeight && OnLevel(lists[level], x) && Before(k, x, key)
        invariant |prev| == MAX_HEIGHT && forall l :: maxHeight <= l < MAX_HEIGHT ==> prev[l] == HEAD
        invariant forall l :: level < l < maxHeight ==> Predecessor(k, lists[l], l, prev[l], key)
        decreases level, |lists[level]| - Place(lists[level], x)
      {
        LoadIsSafe(k, lists, x, level);
        var link := next[x][level];
        if link.To? && keys[link.node] < key {
          MovesForward(k, lists[level], level, x);
          x := link.node;
        } else {
          prev := prev[level := x];
          if level == 0 {
            DividedAnswers(k, lists[0], x, key);
            return link, prev;
          }
          LowerLevel(k, lists, x, level);
          level := level - 1;
        }
      }
    }

    method FindLessThan(key: Key) returns (x: nat)
      requires Ok()
      ensures LastBefore(State(), lists[0], key, To(x))
    {
      x := HEAD;
      var level := maxHeight - 1;
      ghost var k := State();
      while true
        invariant 0 <= level < maxHeight && OnLevel(lists[level], x) && Before(k, x, key)
        decreases level, |lists[level]| - Place(lists[level], x)
      {
        LoadIsSafe(k, lists, x, level);
        var link := next[x][level];
        if link == Null || keys[link.node] >= key {
          if level == 0 {
            DividedAnswers(k, lists[0], x, key);
            return;
          }
          LowerLevel(k, lists, x, level);
          level := level - 1;
        } else {
          MovesForward(k, lists[level], level, x);
          x := link.node;
        }
      }
    }

    method FindLast() returns (x: nat)
      requires Ok()
      ensures LastOf(State(), lists[0], To(x))
    {
      x := HEAD;
      var level := maxHeight - 1;
      ghost var k := State();
      while true
        invariant 0 <= level < maxHeight && OnLevel(lists[level], x)
        decreases level, |lists[level]| - Place(lists[level], x)
      {
        LoadIsSafe(k, lists, x, level);
        var link := next[x][level];
        if link == Null {
          if level == 0 {
            EndAnswers(k, lists[0], x);
            return;
          }
          LowerLevel(k, lists, x, level);
          level := level - 1;
        } else {
          MovesForward(k, lists[level], level, x);
          x := link.node;
        }
      }
    }

    method Contains(key: Key) returns (found: bool)
      requires Ok()
      ensures found <==> key in Contents()
    {
      var link, prev := FindGreaterOrEqual(key);
      found := link.To? && keys[link.node] == key;
      InBounds(State(), lists);
      FoundKey(State(), lists, key, link);
    }

    // Duplicates are not allowed; the height comes from a random source.
    method Insert(key: Key, height: nat)
      requires Ok() && key !in Contents() && 1 <= height <= MAX_HEIGHT
      modifies this
      ensures Ok() && Inserted(old(Contents()), Contents(), key)
      ensures keys == old(keys) + [key] && OnLowest(old(lists), lists, |old(keys)|, height)
      ensures maxHeight == if height > old(maxHeight) then height else old(maxHeight)
    {
      hide LevelOk, Predecessor, SearchResult, InsertAt, SkipLists.Place, Subset;
      ghost var before, k0 := lists[0], State();
      InBounds(k0, lists);
      var link, prev := FindGreaterOrEqual(key);
      SearchIsComplete(State(), lists, key, prev);
      RaiseHeight(key, height, prev);
      var x := NewNode(key, height, prev);
      ghost var q := Place(before, prev[0]);
      for i := 0 to height
        invariant Ok() && Linking(State(), lists, x, prev, i) && |next[x]| == height
        invariant keys == k0.keys + [key] && x == |k0.keys|
        invariant lists[0] == if i == 0 then before else InsertAt(before, q, x)
        invariant OnLowest(old(lists), lists, x, i)
        invariant maxHeight == if height > old(maxHeight) then height else old(maxHeight)
      {
        OnOneMore(old(lists), lists, x, prev, i);
        LinkLevel(x, prev, i);
      }
      InsertedKeys(k0, State(), before, q, x);
    }

    method RaiseHeight(key: Key, height: nat, prev: seq<nat>)
      requires Ok() && 1 <= height <= MAX_HEIGHT && SearchResult(State(), lists, key, prev)
      modifies this`maxHeight
      ensures Ok() && SearchResult(State(), lists, key, prev)
      ensures maxHeight == if height > old(maxHeight) then height else old(maxHeight)
    {
      RaiseKeepsStructure(SkipListReaders.State(State(), lists, Searched(key, height, prev), []));
      if height > maxHeight {
        maxHeight := height;
      }
    }

    method NewNode(key: Key, height: nat, prev: seq<nat>) returns (x: nat)
      requires Ok() && 1 <= height <= maxHeight && SearchResult(State(), lists, key, prev)
      modifies this`keys, this`next
      ensures Ok() && x == |old(keys)| && keys == old(keys) + [key]
      ensures Linking(State(), lists, x, prev, 0) && |next[x]| == height
    {
      MakeNodeKeepsInv(SkipListReaders.State(State(), lists, Raised(key, height, prev), []));
      x := |keys|;
      keys, next := keys + [key], next + [seq(height, _ => Uninitialized)];
    }

    // The loop body of Insert: the two stores of one level.
    method LinkLevel(x: nat, prev: seq<nat>, i: nat)
      requires Ok() && Linking(State(), lists, x, prev, i) && i < |next[x]|
      modifies this`next, this`lists
      ensures Ok() && Linking(State(), lists, x, prev, i + 1) && |next[x]| == |old(next)[x]|
      ensures lists == Published(old(lists), x, prev, i)
    {
      assert Predecessor(State(), lists[i], i, prev[i], keys[x]);
      CopyLink(State(), lists, x, prev, i);
      next := next[x := next[x][i := next[prev[i]][i]]];
      assert Predecessor(State(), lists[i], i, prev[i], keys[x]);
      PublishLink(State(), lists, x, prev, i);
      next := next[prev[i] := next[prev[i]][i := To(x)]];
      lists := Published(lists, x, prev, i);
    }
  }

  // The node has joined the lowest levels, as many as its height, and the others stay.
  ghost predicate OnLowest(before: Lists, after: Lists, n: nat, height: nat) {
    && |after| == |before|
    && forall l, m :: 0 <= l < |before| ==> (m in after[l] <==> m in before[l] || (m == n && l < height))
  }

  lemma OnOneMore(before: Lists, now: Lists, n: nat, prev: seq<nat>, i: nat)
    requires OnLowest(before, now, n, i) && i < |now| && i < |prev|
    ensures OnLowest(before, Published(now, n, prev, i), n, i + 1)
  {
    var p := Place(now[i], prev[i]);
    assert now[i] == now[i][..p] + now[i][p..];
  }

  // The key has joined the others at one place.
  ghost predicate Inserted(before: seq<Key>, after: seq<Key>, key: Key) {
    exists p :: 0 <= p <= |before| && after == before[..p] + [key] + before[p..]
  }

  // What the list holds is always in strictly increasing order, so that place is the one
  // the order prescribes.
  lemma ContentsAscend(k: Links, lists: Lists, i: nat, j: nat)
    requires SkipLists.Ok(k, lists) && i < j < |lists[0]|
    requires forall m :: 0 <= m < |lists[0]| ==> lists[0][m] < |k.keys|
    ensures KeysOf(k, lists[0])[i] < KeysOf(k, lists[0])[j]
  {
    assert LevelOk(k, lists[0], 0);
  }
}
