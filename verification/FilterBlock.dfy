// Filter blocks (table/filter_block.cc): one filter for every 2 KB of data blocks.
module FilterBlock {
  import opened DbFormat
  import opened Coding

  const FILTER_BASE_LG := 11
  const FILTER_BASE := 2048

  // A filter policy: what it appends for a list of keys, and how it answers.
  datatype Policy = Policy(create: seq<Bytes> -> Bytes, keyMayMatch: (Bytes, Bytes) -> bool)

  ghost predicate NoFalseNegatives(p: Policy) {
    forall keys: seq<Bytes>, key: Bytes :: key in keys ==> p.keyMayMatch(key, p.create(keys))
  }

  // ---------- What a block holds ----------

  // A range without keys has an empty filter.
  function FilterFor(p: Policy, keys: seq<Bytes>): Bytes {
    if keys == [] then [] else p.create(keys)
  }

  function Filters(p: Policy, groups: seq<seq<Bytes>>): Bytes {
    if groups == [] then [] else Filters(p, groups[..|groups| - 1]) + FilterFor(p, groups[|groups| - 1])
  }

  function FilterOffsets(p: Policy, groups: seq<seq<Bytes>>): (r: seq<nat>)
    ensures |r| == |groups|
  {
    if groups == [] then []
    else FilterOffsets(p, groups[..|groups| - 1]) + [|Filters(p, groups[..|groups| - 1])| % TWO_32]
  }

  function FilterBlockBytes(p: Policy, groups: seq<seq<Bytes>>): Bytes {
    Filters(p, groups) + Fixed32Array(FilterOffsets(p, groups)) + Fixed32(|Filters(p, groups)| % TWO_32) + [FILTER_BASE_LG]
  }

  function Flatten(keys: seq<Bytes>): Bytes {
    if keys == [] then [] else Flatten(keys[..|keys| - 1]) + keys[|keys| - 1]
  }

  // Where each key begins in the flattened keys.
  function StartsOf(keys: seq<Bytes>): (r: seq<nat>)
    ensures |r| == |keys|
  {
    if keys == [] then [] else StartsOf(keys[..|keys| - 1]) + [|Flatten(keys[..|keys| - 1])|]
  }

  lemma {:induction false} StartIs(keys: seq<Bytes>, i: nat)
    requires i < |keys|
    ensures StartsOf(keys)[i] == |Flatten(keys[..i])|
    ensures |Flatten(keys[..i + 1])| == |Flatten(keys[..i])| + |keys[i]| <= |Flatten(keys)|
    ensures Flatten(keys)[|Flatten(keys[..i])|..|Flatten(keys[..i + 1])|] == keys[i]
  {
    assert keys[..i + 1][..i] == keys[..i];
    if i == |keys| - 1 {
      assert keys[..i + 1] == keys;
    } else {
      var front := keys[..|keys| - 1];
      StartIs(front, i);
      assert front[..i] == keys[..i] && front[..i + 1] == keys[..i + 1];
    }
  }

  // ---------- The builder ----------

  // The keys that were added under block offsets of one range, in order.
  function GroupOf(added: seq<(nat, Bytes)>, i: nat): (keys: seq<Bytes>)
    ensures forall k :: k in keys <==> exists j :: 0 <= j < |added| && added[j].0 / FILTER_BASE == i && added[j].1 == k
  {
    if added == [] then []
    else
      var front, last := added[..|added| - 1], added[|added| - 1];
      assert forall j :: 0 <= j < |front| ==> front[j] == added[j];
      GroupOf(front, i) + if last.0 / FILTER_BASE == i then [last.1] else []
  }

  // One group for each range, in order, and none for later ranges.
  ghost predicate Grouped(groups: seq<seq<Bytes>>, added: seq<(nat, Bytes)>) {
    && (forall i :: 0 <= i < |groups| ==> groups[i] == GroupOf(added, i))
    && (forall j :: 0 <= j < |added| ==> added[j].0 / FILTER_BASE < |groups|)
  }

  // The groups of all finished ranges, and the keys of the range that is open.
  ghost predicate Collected(groups: seq<seq<Bytes>>, pending: seq<Bytes>, added: seq<(nat, Bytes)>) {
    Grouped(groups + [pending], added)
  }

  lemma NothingYet()
    ensures Collected([], [], [])
  {
  }

  lemma OneMoreKey(groups: seq<seq<Bytes>>, pending: seq<Bytes>, added: seq<(nat, Bytes)>, offset: nat, key: Bytes)
    requires Collected(groups, pending, added) && offset / FILTER_BASE == |groups|
    ensures Collected(groups, pending + [key], added + [(offset, key)])
  {
    var more, before, after := added + [(offset, key)], groups + [pending], groups + [pending + [key]];
    assert more[..|added|] == added;
    forall i | 0 <= i < |after| ensures after[i] == GroupOf(more, i) {
      assert before[i] == GroupOf(added, i);
    }
  }

  lemma {:induction false} NoKeys(added: seq<(nat, Bytes)>, i: nat)
    requires forall j :: 0 <= j < |added| ==> added[j].0 / FILTER_BASE != i
    ensures GroupOf(added, i) == []
  {
    if added != [] { NoKeys(added[..|added| - 1], i); }
  }

  lemma NextRange(groups: seq<seq<Bytes>>, pending: seq<Bytes>, added: seq<(nat, Bytes)>)
    requires Collected(groups, pending, added)
    ensures Grouped(groups + [pending], added) && Collected(groups + [pending], [], added)
  {
    var n, after := |groups| + 1, groups + [pending] + [[]];
    NoKeys(added, n);
    forall i | 0 <= i < |after| ensures after[i] == GroupOf(added, i) {
      if i < n { assert (groups + [pending])[i] == GroupOf(added, i); }
    }
  }

  lemma OpenRangeIsEmpty(groups: seq<seq<Bytes>>, added: seq<(nat, Bytes)>)
    requires Collected(groups, [], added)
    ensures Grouped(groups, added) && GroupOf(added, |groups|) == []
  {
    var all := groups + [[]];
    assert all[|groups|] == GroupOf(added, |groups|);
    forall i | 0 <= i < |groups| ensures groups[i] == GroupOf(added, i) { assert all[i] == GroupOf(added, i); }
    forall j | 0 <= j < |added| ensures added[j].0 / FILTER_BASE < |groups| {
      assert added[j].1 in GroupOf(added, added[j].0 / FILTER_BASE);
    }
  }

  lemma OpenRangeIsPending(groups: seq<seq<Bytes>>, pending: seq<Bytes>, added: seq<(nat, Bytes)>)
    requires Collected(groups, pending, added)
    ensures pending == GroupOf(added, |groups|)
  {
    assert (groups + [pending])[|groups|] == pending;
  }

  class FilterBlockBuilder {
    const policy: Policy
    var keys: Bytes
    var start: seq<nat>
    var result: Bytes
    var filterOffsets: seq<nat>
    // The keys of the filters made so far, the keys waiting for the next one, and every
    // key with the offset of its block.
    ghost var groups: seq<seq<Bytes>>
    ghost var pending: seq<Bytes>
    ghost var blockOffset: nat
    ghost var added: seq<(nat, Bytes)>

    ghost predicate Ok()
      reads this
    {
      && result == Filters(policy, groups) && filterOffsets == FilterOffsets(policy, groups)
      && keys == Flatten(pending) && start == StartsOf(pending)
      && |groups| == blockOffset / FILTER_BASE && Collected(groups, pending, added)
    }

    constructor (p: Policy)
      ensures Ok() && policy == p && added == [] && blockOffset == 0
    {
      policy, keys, start, result, filterOffsets := p, [], [], [], [];
      groups, pending, blockOffset, added := [], [], 0, [];
      NothingYet();
    }

    // Offsets must not go back to an earlier range.
    method StartBlock(offset: nat)
      requires Ok() && offset / FILTER_BASE >= |filterOffsets|
      modifies this
      ensures Ok() && blockOffset == offset && added == old(added)
    {
      var filterIndex := offset / FILTER_BASE;
      while filterIndex > |filterOffsets|
        invariant result == Filters(policy, groups) && filterOffsets == FilterOffsets(policy, groups)
        invariant keys == Flatten(pending) && start == StartsOf(pending)
        invariant |groups| <= filterIndex && Collected(groups, pending, added) && added == old(added)
        decreases filterIndex - |filterOffsets|
      {
        GenerateFilter();
      }
      blockOffset := offset;
    }

    method AddKey(key: Bytes)
      requires Ok()
      modifies this
      ensures Ok() && blockOffset == old(blockOffset) && added == old(added) + [(blockOffset, key)]
    {
      assert (pending + [key])[..|pending|] == pending;
      OneMoreKey(groups, pending, added, blockOffset, key);
      start := start + [|keys|];
      keys := keys + key;
      pending := pending + [key];
      added := added + [(blockOffset, key)];
    }

    method GenerateFilter()
      requires result == Filters(policy, groups) && filterOffsets == FilterOffsets(policy, groups)
      requires keys == Flatten(pending) && start == StartsOf(pending) && Collected(groups, pending, added)
      modifies this
      ensures result == Filters(policy, groups) && filterOffsets == FilterOffsets(policy, groups)
      ensures keys == Flatten(pending) && start == StartsOf(pending)
      ensures groups == old(groups) + [old(pending)] && pending == []
      ensures Collected(groups, pending, added) && added == old(added) && blockOffset == old(blockOffset)
    {
      hide Collected, Grouped, GroupOf;
      assert (groups + [pending])[..|groups|] == groups;
      NextRange(groups, pending, added);
      filterOffsets := filterOffsets + [|result| % TWO_32];
      if |start| == 0 {
        assert result + [] == result;
      } else {
        var tmpKeys := KeyList();
        result := result + policy.create(tmpKeys);
        keys, start := [], [];
      }
      groups, pending := groups + [pending], [];
    }

    // The keys again, from the flattened string.
    method KeyList() returns (tmpKeys: seq<Bytes>)
      requires keys == Flatten(pending) && start == StartsOf(pending)
      ensures tmpKeys == pending
    {
      var ends := start + [|keys|];
      tmpKeys := [];
      for i := 0 to |start|
        invariant tmpKeys == pending[..i]
      {
        StartIs(pending, i);
        if i + 1 < |pending| { StartIs(pending, i + 1); } else { assert pending[..i + 1] == pending; }
        tmpKeys := tmpKeys + [keys[start[i]..ends[i + 1]]];
      }
    }

    method Finish() returns (contents: Bytes)
      requires Ok()
      modifies this
      ensures contents == FilterBlockBytes(policy, groups) && added == old(added)
      ensures Grouped(groups, added)
      ensures |groups| == old(blockOffset) / FILTER_BASE + if GroupOf(added, old(blockOffset) / FILTER_BASE) == [] then 0 else 1
    {
      hide Filters, FilterOffsets, Flatten, StartsOf, Fixed32, Collected, GroupOf;
      NothingPending(pending);
      OpenRangeIsPending(groups, pending, added);
      if start != [] {
        GenerateFilter();
      }
      OpenRangeIsEmpty(groups, added);
      var arrayOffset := |result|;
      for i := 0 to |filterOffsets|
        modifies this`result
        invariant result == Filters(policy, groups) + Fixed32Array(filterOffsets[..i])
      {
        assert filterOffsets[..i + 1][..i] == filterOffsets[..i];
        result := result + Fixed32(filterOffsets[i] % TWO_32);
      }
      assert filterOffsets[..|filterOffsets|] == filterOffsets;
      result := result + Fixed32(arrayOffset % TWO_32);
      result := result + [FILTER_BASE_LG];
      contents := result;
    }
  }

  lemma NothingPending(pending: seq<Bytes>)
    ensures StartsOf(pending) == [] <==> pending == []
  {
  }

  // ---------- The reader ----------

  // What a reader finds in a block: where the offset array begins, the number of filters,
  // and the encoding parameter.
  datatype Opened = Opened(arrayStart: nat, num: nat, baseLg: nat)

  function WordAt(contents: Bytes, at: nat): Word32
    requires at + 4 <= |contents|
  {
    DecodeFixed32(contents[at..at + 4])
  }

  // Contents that make no sense leave a reader without filters.
  function Open(contents: Bytes): (r: Opened)
    ensures r.num > 0 ==> r.arrayStart + 4 * r.num + 5 <= |contents|
  {
    if |contents| < 5 then Opened(0, 0, 0)
    else
      var lastWord := WordAt(contents, |contents| - 5);
      if lastWord > |contents| - 5 then Opened(0, 0, contents[|contents| - 1])
      else Opened(lastWord, (|contents| - 5 - lastWord) / 4, contents[|contents| - 1])
  }

  // The offset shifted right by the encoding parameter.
  function FilterIndex(blockOffset: nat, baseLg: nat): nat {
    if baseLg == 0 then blockOffset else FilterIndex(blockOffset / 2, baseLg - 1)
  }

  lemma FilterIndexOfRange(o: nat)
    ensures FilterIndex(o, FILTER_BASE_LG) == o / FILTER_BASE
  {
    FourBitsLess(o, 11);
    FourBitsLess(o / 16, 7);
    assert FilterIndex(o / 256, 3) == FilterIndex(o / 512, 2) == FilterIndex(o / 1024, 1) == FilterIndex(o / 2048, 0);
  }

  lemma FourBitsLess(o: nat, lg: nat)
    requires lg >= 4
    ensures FilterIndex(o, lg) == FilterIndex(o / 16, lg - 4)
  {
    assert FilterIndex(o, lg) == FilterIndex(o / 2, lg - 1) == FilterIndex(o / 4, lg - 2) == FilterIndex(o / 8, lg - 3);
  }

  function MayMatchAt(p: Policy, contents: Bytes, r: Opened, index: nat, key: Bytes): bool
    requires index < r.num && r.arrayStart + 4 * r.num + 5 <= |contents|
  {
    var begin := WordAt(contents, r.arrayStart + 4 * index);
    var limit := WordAt(contents, r.arrayStart + 4 * index + 4);
    if begin <= limit && limit <= r.arrayStart then p.keyMayMatch(key, contents[begin..limit])
    else begin != limit
  }

  // The answer as a function of the block.  Errors are treated as potential matches.
  function MayMatch(p: Policy, contents: Bytes, blockOffset: nat, key: Bytes): bool {
    var r := Open(contents);
    var index := FilterIndex(blockOffset, r.baseLg);
    index >= r.num || MayMatchAt(p, contents, r, index, key)
  }

  class FilterBlockReader {
    const policy: Policy
    const contents: Bytes
    const arrayStart: nat
    const num: nat
    const baseLg: nat

    ghost predicate Ok()
    {
      Open(contents) == Opened(arrayStart, num, baseLg)
    }

    constructor (p: Policy, data: Bytes)
      ensures Ok() && policy == p && contents == data
    {
      policy, contents := p, data;
      var lg: nat, start: nat, count: nat := 0, 0, 0;
      if |data| >= 5 {
        lg := data[|data| - 1];
        var lastWord := WordAt(data, |data| - 5);
        if lastWord <= |data| - 5 {
          start := lastWord;
          count := (|data| - 5 - lastWord) / 4;
        }
      }
      baseLg, arrayStart, num := lg, start, count;
    }

    method KeyMayMatch(blockOffset: nat, key: Bytes) returns (may: bool)
      requires Ok()
      ensures may == MayMatch(policy, contents, blockOffset, key)
    {
      hide Open, WordAt, FilterIndex;
      var index := FilterIndex(blockOffset, baseLg);
      if index < num {
        var begin := WordAt(contents, arrayStart + 4 * index);
        var limit := WordAt(contents, arrayStart + 4 * index + 4);
        if begin <= limit && limit <= arrayStart {
          return policy.keyMayMatch(key, contents[begin..limit]);
        } else if begin == limit {
          return false;
        }
      }
      return true;
    }
  }

  // ---------- No key is lost ----------

  lemma {:induction false} FilterIsThere(p: Policy, groups: seq<seq<Bytes>>, i: nat)
    requires i < |groups|
    ensures var begin, limit := |Filters(p, groups[..i])|, |Filters(p, groups[..i + 1])|;
            && begin <= limit <= |Filters(p, groups)|
            && Filters(p, groups)[begin..limit] == FilterFor(p, groups[i])
            && FilterOffsets(p, groups)[i] == begin % TWO_32
  {
    hide FilterFor;
    assert groups[..i + 1][..i] == groups[..i];
    if i == |groups| - 1 {
      assert groups[..i + 1] == groups;
    } else {
      var front := groups[..|groups| - 1];
      FilterIsThere(p, front, i);
      assert front[..i] == groups[..i] && front[..i + 1] == groups[..i + 1];
    }
  }

  lemma OpenBuilt(p: Policy, groups: seq<seq<Bytes>>)
    requires |FilterBlockBytes(p, groups)| < TWO_32
    ensures Open(FilterBlockBytes(p, groups)) == Opened(|Filters(p, groups)|, |groups|, FILTER_BASE_LG)
  {
    hide Filters, Fixed32Array, Fixed32, DecodeFixed, FilterOffsets;
    var body := Filters(p, groups) + Fixed32Array(FilterOffsets(p, groups));
    var word: Bytes, lg: Bytes := Fixed32(|Filters(p, groups)| % TWO_32), [FILTER_BASE_LG];
    ThreeParts(body, word, lg);
    assert FilterBlockBytes(p, groups) == body + word + lg;
    Fixed32RoundTrip(|Filters(p, groups)| % TWO_32);
  }

  // The word at an index of the offset array; after the last offset comes the place of
  // the array itself, which is where the last filter ends.
  lemma OffsetWord(p: Policy, groups: seq<seq<Bytes>>, i: nat)
    requires |FilterBlockBytes(p, groups)| < TWO_32 && i <= |groups|
    ensures var start := |Filters(p, groups)|;
            && start + 4 * i + 4 <= |FilterBlockBytes(p, groups)|
            && WordAt(FilterBlockBytes(p, groups), start + 4 * i) == |Filters(p, groups[..i])|
  {
    hide Filters, Fixed32Array, Fixed32, DecodeFixed, FilterOffsets;
    var words := FilterOffsets(p, groups) + [|Filters(p, groups)| % TWO_32];
    assert words[..|groups|] == FilterOffsets(p, groups);
    ArrayWithOneMore(FilterOffsets(p, groups), |Filters(p, groups)|);
    var start, lg: Bytes := Filters(p, groups), [FILTER_BASE_LG];
    assert FilterBlockBytes(p, groups) == start + Fixed32Array(words) + lg;
    Fixed32ArrayAt(words, i);
    PartOfMiddle(start, Fixed32Array(words), lg, 4 * i);
    if i < |groups| { FilterIsThere(p, groups, i); } else { assert groups[..i] == groups; }
    Fixed32RoundTrip(words[i] % TWO_32);
  }

  lemma ArrayWithOneMore(words: seq<nat>, w: nat)
    ensures Fixed32Array(words + [w % TWO_32]) == Fixed32Array(words) + Fixed32(w % TWO_32)
  {
    hide Fixed32;
    assert (words + [w % TWO_32])[..|words|] == words;
  }

  // In a built block the answer for an offset is the policy's answer for the keys of its
  // range, whatever the key; past the last filter everything may match.  The filter of a
  // range without keys is empty, and the policy is asked about that.
  lemma BuiltBlockAnswers(p: Policy, groups: seq<seq<Bytes>>, blockOffset: nat, key: Bytes)
    requires |FilterBlockBytes(p, groups)| < TWO_32
    ensures var i := blockOffset / FILTER_BASE;
            MayMatch(p, FilterBlockBytes(p, groups), blockOffset, key)
            <==> i >= |groups| || p.keyMayMatch(key, if groups[i] == [] then [] else p.create(groups[i]))
  {
    hide Filters, Fixed32Array, Fixed32, DecodeFixed, FilterOffsets, WordAt, Open, FilterIndex;
    var i, contents := blockOffset / FILTER_BASE, FilterBlockBytes(p, groups);
    OpenBuilt(p, groups);
    FilterIndexOfRange(blockOffset);
    if i < |groups| {
      OffsetWord(p, groups, i);
      OffsetWord(p, groups, i + 1);
      FilterIsThere(p, groups, i);
      var begin, limit := |Filters(p, groups[..i])|, |Filters(p, groups[..i + 1])|;
      assert contents[begin..limit] == Filters(p, groups)[begin..limit];
    }
  }

  // So every key that was added under a block offset may match there.
  lemma AddedKeyMayMatch(p: Policy, groups: seq<seq<Bytes>>, added: seq<(nat, Bytes)>, i: nat)
    requires NoFalseNegatives(p) && |FilterBlockBytes(p, groups)| < TWO_32
    requires Grouped(groups, added) && i < |added|
    ensures MayMatch(p, FilterBlockBytes(p, groups), added[i].0, added[i].1)
  {
    hide MayMatch, FilterBlockBytes;
    BuiltBlockAnswers(p, groups, added[i].0, added[i].1);
    assert added[i].1 in GroupOf(added, added[i].0 / FILTER_BASE);
  }

  // For any contents: a key is ruled out only by an empty filter, or by the policy asked
  // about a filter that lies before the offset array.  Errors are potential matches.
  lemma OnlyFiltersRuleOut(p: Policy, contents: Bytes, blockOffset: nat, key: Bytes)
    requires !MayMatch(p, contents, blockOffset, key)
    ensures var r := Open(contents);
            var at := r.arrayStart + 4 * FilterIndex(blockOffset, r.baseLg);
            && at + 8 <= |contents|
            && (|| WordAt(contents, at) == WordAt(contents, at + 4)
                || (WordAt(contents, at) < WordAt(contents, at + 4) <= r.arrayStart
                    && !p.keyMayMatch(key, contents[WordAt(contents, at)..WordAt(contents, at + 4)])))
  {
    hide WordAt, FilterIndex;
  }
}
