// The list of snapshots (db/snapshot.h): doubly linked, circular, with a dummy head.
module SnapshotList {
  import opened DbFormat

  class SnapshotImpl {
    const number: SequenceNumber
    var prev: SnapshotImpl
    var next: SnapshotImpl

    constructor (n: SequenceNumber)
      ensures number == n && prev == this && next == this
    {
      number, prev, next := n, this, this;
    }
  }

  function NumbersOf(nodes: seq<SnapshotImpl>): (r: seq<SequenceNumber>)
    ensures |r| == |nodes| && forall i :: 0 <= i < |nodes| ==> r[i] == nodes[i].number
  {
    if nodes == [] then [] else [nodes[0].number] + NumbersOf(nodes[1..])
  }

  class SnapshotList {
    const list: SnapshotImpl
    // The snapshots from the oldest to the newest.
    ghost var nodes: seq<SnapshotImpl>

    // The node at a place of the ring; the head is at both ends.
    ghost function At(i: nat): SnapshotImpl
      requires i <= |nodes| + 1
      reads this
    {
      if 0 < i <= |nodes| then nodes[i - 1] else list
    }

    ghost predicate Ok()
      reads this, list, nodes
    {
      && (forall i :: 0 <= i < |nodes| ==> nodes[i] != list)
      && (forall i, j :: 0 <= i < j < |nodes| ==> nodes[i] != nodes[j])
      && (forall i :: 0 <= i <= |nodes| ==> At(i).next == At(i + 1))
      && (forall i :: 0 <= i <= |nodes| ==> At(i + 1).prev == At(i))
    }

    // The sequence numbers that readers hold.
    ghost function Numbers(): seq<SequenceNumber>
      reads this
    {
      NumbersOf(nodes)
    }

    constructor ()
      ensures Ok() && nodes == [] && fresh(list)
    {
      list := new SnapshotImpl(0);
      nodes := [];
    }

    method Empty() returns (empty: bool)
      requires Ok()
      ensures empty <==> Numbers() == []
    {
      empty := list.next == list;
      assert At(0).next == At(1);
    }

    method Oldest() returns (s: SnapshotImpl)
      requires Ok() && Numbers() != []
      ensures s == nodes[0] && s.number == Numbers()[0]
    {
      assert At(0).next == At(1);
      s := list.next;
    }

    method Newest() returns (s: SnapshotImpl)
      requires Ok() && Numbers() != []
      ensures s == nodes[|nodes| - 1] && s.number == Numbers()[|nodes| - 1]
    {
      assert At(|nodes| + 1).prev == At(|nodes|);
      s := list.prev;
    }

    method New(number: SequenceNumber) returns (s: SnapshotImpl)
      requires Ok()
      modifies this, list, nodes
      ensures Ok() && fresh(s) && s.number == number && nodes == old(nodes) + [s]
      ensures Numbers() == old(Numbers()) + [number]
    {
      assert At(|nodes| + 1).prev == At(|nodes|);
      s := new SnapshotImpl(number);
      s.next := list;
      s.prev := list.prev;
      s.prev.next := s;
      s.next.prev := s;
      nodes := nodes + [s];
      LinksAfterNew(s);
    }

    twostate lemma LinksAfterNew(new s: SnapshotImpl)
      requires old(Ok()) && fresh(s) && nodes == old(nodes) + [s]
      requires s.next == list && s.prev == old(list.prev) && list.prev == s && old(list.prev).next == s
      requires forall n :: n in {list} + (set i | 0 <= i < |old(nodes)| :: old(nodes)[i]) ==>
        && (n != old(list.prev) ==> n.next == old(n.next)) && (n != list ==> n.prev == old(n.prev))
      ensures Ok()
    {
      assert old(At(|nodes| + 1).prev == At(|nodes|));
      forall i | 0 <= i <= |nodes| ensures At(i).next == At(i + 1) && At(i + 1).prev == At(i) {
        if i < |old(nodes)| {
          assert old(At(i).next == At(i + 1)) && old(At(i + 1).prev == At(i));
        }
      }
    }

    // Unlinks the snapshot at a place of the list.
    method Delete(s: SnapshotImpl, ghost i: nat)
      requires Ok() && i < |nodes| && nodes[i] == s
      modifies this, list, nodes
      ensures Ok() && nodes == old(nodes)[..i] + old(nodes)[i + 1..]
      ensures Numbers() == old(Numbers())[..i] + old(Numbers())[i + 1..]
    {
      assert At(i + 1) == s && At(i + 1).next == At(i + 2) && At(i + 1).prev == At(i);
      NumbersWithout(nodes, i);
      s.prev.next := s.next;
      s.next.prev := s.prev;
      nodes := nodes[..i] + nodes[i + 1..];
      LinksAfterDelete(i);
    }

    twostate lemma LinksAfterDelete(i: nat)
      requires old(Ok()) && i < |old(nodes)| && nodes == old(nodes)[..i] + old(nodes)[i + 1..]
      requires old(At(i)).next == old(At(i + 2)) && old(At(i + 2)).prev == old(At(i))
      requires forall n :: n in {list} + (set j | 0 <= j < |old(nodes)| :: old(nodes)[j]) ==>
        && (n != old(At(i)) ==> n.next == old(n.next)) && (n != old(At(i + 2)) ==> n.prev == old(n.prev))
      ensures Ok()
    {
      forall j | 0 <= j <= |nodes| ensures At(j).next == At(j + 1) && At(j + 1).prev == At(j) {
        var k := if j <= i then j else j + 1;
        assert old(At(k).next == At(k + 1)) && old(At(k + 1).prev == At(k));
      }
    }
  }

  lemma NumbersWithout(nodes: seq<SnapshotImpl>, i: nat)
    requires i < |nodes|
    ensures NumbersOf(nodes[..i] + nodes[i + 1..]) == NumbersOf(nodes)[..i] + NumbersOf(nodes)[i + 1..]
  {
    hide NumbersOf;
    var rest := nodes[..i] + nodes[i + 1..];
    assert forall k :: 0 <= k < |rest| ==> rest[k] == nodes[if k < i then k else k + 1];
  }
}
