// The structure of the memtable's skip list (db/skiplist.h): nodes, links, and the list
// that every level forms.
module SkipLists {
  import opened DbFormat

  // The place of a key in the comparator's total order.
  type Key = real

  const MAX_HEIGHT := 12
  const HEAD: nat := 0

  datatype Link = Uninitialized | Null | To(node: nat)

  // Node 0 is the head, whose key means nothing.  next[n][l] is node n's link at level l.
  datatype Links = Links(keys: seq<Key>, next: seq<seq<Link>>, maxHeight: nat)

  // The nodes of every level in the order of their links, without the head.
  type Lists = seq<seq<nat>>

  function NodeAt(list: seq<nat>, p: nat): nat
    requires p <= |list|
  {
    if p == 0 then HEAD else list[p - 1]
  }

  function LinkAt(list: seq<nat>, p: nat): Link {
    if p < |list| then To(list[p]) else Null
  }

  predicate HasLevel(k: Links, n: nat, level: nat) {
    n < |k.keys| && n < |k.next| && level < |k.next[n]|
  }

  predicate SortedList(k: Links, list: seq<nat>) {
    && (forall i :: 0 <= i < |list| ==> HEAD < list[i] < |k.keys|)
    && (forall i, j :: 0 <= i < j < |list| ==> k.keys[list[i]] < k.keys[list[j]])
  }

  // The links of the level lead from the head through the list, and then to null.
  predicate Chained(k: Links, list: seq<nat>, level: nat) {
    forall p :: 0 <= p <= |list| ==> HasLevel(k, NodeAt(list, p), level) && k.next[NodeAt(list, p)][level] == LinkAt(list, p)
  }

  predicate LevelOk(k: Links, list: seq<nat>, level: nat) {
    SortedList(k, list) && Chained(k, list, level)
  }

  predicate Subset(upper: seq<nat>, lower: seq<nat>) {
    forall n :: n in upper ==> n in lower
  }

  predicate Ok(k: Links, lists: Lists) {
    && |k.keys| == |k.next| && |lists| == MAX_HEIGHT && 1 <= k.maxHeight <= MAX_HEIGHT
    && (forall l :: 0 <= l < MAX_HEIGHT ==> LevelOk(k, lists[l], l))
    && (forall l :: 0 <= l < MAX_HEIGHT - 1 ==> Subset(lists[l + 1], lists[l]))
    && (forall l :: k.maxHeight <= l < MAX_HEIGHT ==> lists[l] == [])
  }

  predicate OnLevel(list: seq<nat>, n: nat) {
    n == HEAD || n in list
  }

  // The node is the head, or its key is before the given one.
  predicate Before(k: Links, n: nat, key: Key) {
    n == HEAD || (n < |k.keys| && k.keys[n] < key)
  }

  // The link leads to no node with a key before the given one (KeyIsAfterNode is false).
  predicate AtOrAfter(k: Links, link: Link, key: Key) {
    link == Null || (link.To? && link.node < |k.keys| && k.keys[link.node] >= key)
  }

  // ---------- What a search may conclude from a link ----------

  function Place(list: seq<nat>, n: nat): (p: nat)
    ensures p <= |list| && (OnLevel(list, n) ==> NodeAt(list, p) == n)
  {
    if n == HEAD || list == [] then 0
    else if list[0] == n then 1
    else
      var p := Place(list[1..], n);
      assert list == [list[0]] + list[1..];
      if p == 0 then 0 else 1 + p
  }

  // A node on a level has its link there, and the link stays on the level.
  lemma LinkIsThere(k: Links, list: seq<nat>, level: nat, n: nat)
    requires LevelOk(k, list, level) && OnLevel(list, n)
    ensures HasLevel(k, n, level) && !k.next[n][level].Uninitialized?
    ensures k.next[n][level].To? ==> k.next[n][level].node in list && HEAD < k.next[n][level].node < |k.keys|
  {
    assert HasLevel(k, NodeAt(list, Place(list, n)), level);
  }

  // From a node before the key to a link at or after it: these are neighbours, with
  // everything before the key on one side and the rest on the other.
  lemma LinkDivides(k: Links, list: seq<nat>, level: nat, n: nat, key: Key)
    requires LevelOk(k, list, level) && OnLevel(list, n) && Before(k, n, key)
    requires HasLevel(k, n, level) && AtOrAfter(k, k.next[n][level], key)
    ensures var p := Place(list, n);
            && NodeAt(list, p) == n && LinkAt(list, p) == k.next[n][level]
            && (forall i :: 0 <= i < p ==> k.keys[list[i]] < key)
            && (forall i :: p <= i < |list| ==> k.keys[list[i]] >= key)
  {
    var p := Place(list, n);
    assert HasLevel(k, NodeAt(list, p), level);
    if p < |list| {
      forall i | p <= i < |list| ensures k.keys[list[i]] >= key { if i > p { assert k.keys[list[p]] < k.keys[list[i]]; } }
    }
    forall i | 0 <= i < p ensures k.keys[list[i]] < key { if i < p - 1 { assert k.keys[list[i]] < k.keys[list[p - 1]]; } }
  }

  // ---------- Linking a node into one level ----------

  function SetNext(k: Links, n: nat, level: nat, link: Link): Links
    requires HasLevel(k, n, level)
  {
    k.(next := k.next[n := k.next[n][level := link]])
  }

  function InsertAt(list: seq<nat>, p: nat, n: nat): seq<nat>
    requires p <= |list|
  {
    list[..p] + [n] + list[p..]
  }

  lemma InsertAtMembers(list: seq<nat>, p: nat, n: nat)
    requires p <= |list|
    ensures forall m :: m in InsertAt(list, p, n) <==> m in list || m == n
  {
    assert list == list[..p] + list[p..];
  }

  // Storing a link at one level does not disturb another level, nor its own level if the
  // node is not on it.
  lemma StoreElsewhere(k: Links, list: seq<nat>, level: nat, n: nat, at: nat, link: Link)
    requires LevelOk(k, list, level) && HasLevel(k, n, at)
    requires at != level || !OnLevel(list, n)
    ensures LevelOk(SetNext(k, n, at, link), list, level)
  {
    forall p | 0 <= p <= |list|
      ensures HasLevel(SetNext(k, n, at, link), NodeAt(list, p), level)
           && SetNext(k, n, at, link).next[NodeAt(list, p)][level] == LinkAt(list, p)
    {
      assert HasLevel(k, NodeAt(list, p), level);
      assert p > 0 ==> list[p - 1] in list;
    }
  }

  // The store that publishes a node on a level.
  lemma StorePublishes(k: Links, list: seq<nat>, level: nat, p: nat, n: nat)
    requires LevelOk(k, list, level) && p <= |list| && !OnLevel(list, n) && n < |k.keys|
    requires HasLevel(k, n, level) && k.next[n][level] == LinkAt(list, p)
    requires forall i :: 0 <= i < p ==> k.keys[list[i]] < k.keys[n]
    requires forall i :: p <= i < |list| ==> k.keys[n] < k.keys[list[i]]
    ensures HasLevel(k, NodeAt(list, p), level)
    ensures LevelOk(SetNext(k, NodeAt(list, p), level, To(n)), InsertAt(list, p, n), level)
  {
    var prev := NodeAt(list, p);
    assert HasLevel(k, prev, level);
    var after, longer := SetNext(k, prev, level, To(n)), InsertAt(list, p, n);
    forall q | 0 <= q <= |longer|
      ensures HasLevel(after, NodeAt(longer, q), level) && after.next[NodeAt(longer, q)][level] == LinkAt(longer, q)
    {
      if q <= p {
        assert NodeAt(longer, q) == NodeAt(list, q) && HasLevel(k, NodeAt(list, q), level);
        NodesDiffer(k, list, q, p);
      } else if q > p + 1 {
        assert NodeAt(longer, q) == NodeAt(list, q - 1) && HasLevel(k, NodeAt(list, q - 1), level);
        NodesDiffer(k, list, q - 1, p);
      }
    }
  }

  lemma NodesDiffer(k: Links, list: seq<nat>, p: nat, q: nat)
    requires SortedList(k, list) && p <= |list| && q <= |list|
    ensures p != q ==> NodeAt(list, p) != NodeAt(list, q)
  {
    if 0 < p < q { assert k.keys[list[p - 1]] < k.keys[list[q - 1]]; }
    if 0 < q < p { assert k.keys[list[q - 1]] < k.keys[list[p - 1]]; }
  }

  // ---------- A node that is being linked, level by level from the bottom ----------

  // The node after which the key belongs on the level.
  predicate Predecessor(k: Links, list: seq<nat>, level: nat, prev: nat, key: Key) {
    && OnLevel(list, prev) && Before(k, prev, key) && HasLevel(k, prev, level)
    && AtOrAfter(k, k.next[prev][level], key)
  }

  predicate Linking(k: Links, lists: Lists, n: nat, prev: seq<nat>, level: nat) {
    && HEAD < n < |k.keys| == |k.next| && |lists| == |prev| == MAX_HEIGHT
    && level <= |k.next[n]| <= k.maxHeight <= MAX_HEIGHT
    && (forall l :: 0 <= l < level ==> n in lists[l])
    && (forall l :: level <= l < MAX_HEIGHT ==> n !in lists[l])
    && (forall l, m :: 0 <= l < MAX_HEIGHT && m in lists[l] && m != n ==> m < |k.keys| && k.keys[m] != k.keys[n])
    && (forall l :: level <= l < |k.next[n]| ==> Predecessor(k, lists[l], l, prev[l], k.keys[n]))
  }

  // The first store of a round: the new node takes over its predecessor's link.  No
  // reader can see it yet.
  lemma CopyLink(k: Links, lists: Lists, n: nat, prev: seq<nat>, level: nat)
    requires Ok(k, lists) && Linking(k, lists, n, prev, level) && level < |k.next[n]|
    ensures var after := SetNext(k, n, level, k.next[prev[level]][level]);
            && Ok(after, lists) && Linking(after, lists, n, prev, level)
            && after.next[n][level] == after.next[prev[level]][level]
  {
    var link := k.next[prev[level]][level];
    var after := SetNext(k, n, level, link);
    forall l | 0 <= l < MAX_HEIGHT ensures LevelOk(after, lists[l], l) {
      StoreElsewhere(k, lists[l], l, n, level, link);
    }
    forall l | level <= l < |after.next[n]| ensures Predecessor(after, lists[l], l, prev[l], after.keys[n]) {
      assert Predecessor(k, lists[l], l, prev[l], k.keys[n]);
    }
  }

  function Published(lists: Lists, n: nat, prev: seq<nat>, level: nat): Lists
    requires level < |lists| && level < |prev|
  {
    lists[level := InsertAt(lists[level], Place(lists[level], prev[level]), n)]
  }

  lemma PublishedLevel(k: Links, lists: Lists, n: nat, prev: seq<nat>, level: nat)
    requires Ok(k, lists) && Linking(k, lists, n, prev, level) && level < |k.next[n]|
    requires k.next[n][level] == k.next[prev[level]][level]
    ensures LevelOk(SetNext(k, prev[level], level, To(n)), Published(lists, n, prev, level)[level], level)
  {
    var list, p := lists[level], Place(lists[level], prev[level]);
    assert LevelOk(k, list, level) && Predecessor(k, list, level, prev[level], k.keys[n]);
    LinkDivides(k, list, level, prev[level], k.keys[n]);
    forall i | p <= i < |list| ensures k.keys[n] < k.keys[list[i]] { assert list[i] in list; }
    StorePublishes(k, list, level, p, n);
  }

  // The second store: the node joins the level, and every level is still a sorted list of
  // nodes of the one below.
  lemma PublishLink(k: Links, lists: Lists, n: nat, prev: seq<nat>, level: nat)
    requires Ok(k, lists) && Linking(k, lists, n, prev, level) && level < |k.next[n]|
    requires k.next[n][level] == k.next[prev[level]][level]
    ensures var after := SetNext(k, prev[level], level, To(n));
            Ok(after, Published(lists, n, prev, level)) && Linking(after, Published(lists, n, prev, level), n, prev, level + 1)
  {
    assert Predecessor(k, lists[level], level, prev[level], k.keys[n]);
    var after, grown := SetNext(k, prev[level], level, To(n)), Published(lists, n, prev, level);
    PublishedLevel(k, lists, n, prev, level);
    InsertAtMembers(lists[level], Place(lists[level], prev[level]), n);
    forall l | 0 <= l < MAX_HEIGHT && l != level ensures LevelOk(after, grown[l], l) {
      StoreElsewhere(k, lists[l], l, prev[level], level, To(n));
    }
    forall l | level + 1 <= l < |after.next[n]| ensures Predecessor(after, grown[l], l, prev[l], after.keys[n]) {
      assert Predecessor(k, lists[l], l, prev[l], k.keys[n]);
    }
  }
}
