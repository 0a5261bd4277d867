// Merging forward only, as a compaction does, when keys may occur in several children
// (table/merger.cc).
module MergeDuplicates {
  import opened DbFormat
  import opened Merger

  predicate Ascending(es: seq<Entry>) {
    forall i, j :: 0 <= i < j < |es| ==> !Less(es[j].key, es[i].key)
  }

  predicate AllAscending(children: seq<Cursor>) {
    forall i :: 0 <= i < |children| ==> Ascending(children[i].run) && children[i].pos <= |children[i].run|
  }

  // What the children have still to bring.
  function Rest(children: seq<Cursor>): multiset<Entry>
    requires forall i :: 0 <= i < |children| ==> children[i].pos <= |children[i].run|
  {
    if children == [] then multiset{}
    else multiset(children[0].run[children[0].pos..]) + Rest(children[1..])
  }

  lemma {:induction false} RestAfterStep(children: seq<Cursor>, i: nat)
    requires forall j :: 0 <= j < |children| ==> children[j].pos <= |children[j].run|
    requires i < |children| && children[i].Valid()
    ensures Rest(children) == multiset{children[i].run[children[i].pos]} + Rest(children[i := children[i].Next()])
  {
    var c := children[i];
    if i == 0 {
      assert children[0 := c.Next()][1..] == children[1..];
      assert c.run[c.pos..] == [c.run[c.pos]] + c.run[c.pos + 1..];
    } else {
      RestAfterStep(children[1..], i - 1);
      assert children[i := c.Next()][1..] == children[1..][i - 1 := c.Next()];
    }
  }

  lemma {:induction false} RestOfInvalid(children: seq<Cursor>)
    requires forall i :: 0 <= i < |children| ==> children[i].pos <= |children[i].run| && !children[i].Valid()
    ensures Rest(children) == multiset{}
  {
    if children != [] {
      RestOfInvalid(children[1..]);
      assert children[0].run[children[0].pos..] == [];
    }
  }

  // No entry that is still to come is before the key.
  predicate NothingBefore(children: seq<Cursor>, key: InternalKey) {
    forall i, j :: 0 <= i < |children| && children[i].pos <= j < |children[i].run| ==> !Less(children[i].run[j].key, key)
  }

  lemma SmallestBoundsRest(children: seq<Cursor>, s: nat)
    requires AllAscending(children) && s < |children| && children[s].Valid()
    requires forall i :: 0 <= i < |children| && children[i].Valid() ==> !Less(children[i].Key(), children[s].Key())
    ensures NothingBefore(children, children[s].Key())
  {
    forall i, j | 0 <= i < |children| && children[i].pos <= j < |children[i].run|
      ensures !Less(children[i].run[j].key, children[s].Key())
    {
      var c := children[i];
      assert c.Valid();
      if c.pos < j { assert !Less(c.run[j].key, c.run[c.pos].key); }
    }
  }

  // The output is sorted, and nothing still to come belongs before any of it.
  ghost predicate InOrder(children: seq<Cursor>, out: seq<Entry>) {
    && AllAscending(children) && Ascending(out)
    && forall i :: 0 <= i < |out| ==> NothingBefore(children, out[i].key)
  }

  lemma StepKeepsOrder(children: seq<Cursor>, out: seq<Entry>, s: nat)
    requires InOrder(children, out) && s < |children| && children[s].Valid()
    requires NothingBefore(children, children[s].Key())
    ensures InOrder(children[s := children[s].Next()], out + [children[s].run[children[s].pos]])
  {
    hide Less;
    var after := children[s := children[s].Next()];
    forall key | NothingBefore(children, key) ensures NothingBefore(after, key) {
    }
    assert forall i :: 0 <= i < |out| ==> NothingBefore(children, out[i].key);
  }

  // SeekToFirst and then Next to the end: the output is the sorted multiset union.
  method MergeForward(runs: seq<Cursor>) returns (out: seq<Entry>)
    requires AllAscending(runs) && forall i :: 0 <= i < |runs| ==> runs[i].pos == 0
    ensures Ascending(out) && multiset(out) == Rest(runs)
  {
    hide Ascending, NothingBefore, Less, Rest;
    var children := runs;
    out := [];
    NothingOut(runs);
    while true
      invariant InOrder(children, out) && multiset(out) + Rest(children) == Rest(runs)
      decreases |Rest(children)|
    {
      var smallest := SmallestChild(children);
      if smallest.None? {
        RestOfInvalid(children);
        break;
      }
      var c := children[smallest.value];
      SmallestBoundsRest(children, smallest.value);
      RestAfterStep(children, smallest.value);
      StepKeepsOrder(children, out, smallest.value);
      out := out + [c.run[c.pos]];
      children := children[smallest.value := c.Next()];
    }
  }

  lemma NothingOut(runs: seq<Cursor>)
    requires AllAscending(runs)
    ensures InOrder(runs, [])
  {
  }
}
