// Prefix-compressed blocks: what the builder writes (table/block_builder.cc).
module BlockFormat {
  import opened DbFormat
  import opened Coding

  datatype Pair = Pair(key: Bytes, value: Bytes)

  // How many entries have been written since the last restart point, after n entries.
  function Counter(n: nat, interval: nat): (c: nat)
    requires interval >= 1
    ensures c <= interval && (n > 0 ==> c >= 1)
  {
    if n == 0 then 0
    else if Counter(n - 1, interval) < interval then Counter(n - 1, interval) + 1
    else 1
  }

  // The i-th entry stores its whole key.
  predicate IsRestart(i: nat, interval: nat)
    requires interval >= 1
  {
    i == 0 || Counter(i, interval) == interval
  }

  // The entries at restart points among the first n; there is always the first point.
  function Starts(n: nat, interval: nat): (starts: seq<nat>)
    requires interval >= 1
    ensures starts != [] && starts[0] == 0
    ensures forall j :: 0 <= j < |starts| ==> starts[j] < n || starts[j] == 0
    ensures forall j :: 0 <= j < |starts| ==> IsRestart(starts[j], interval)
    ensures forall j, l :: 0 <= j < l < |starts| ==> starts[j] < starts[l]
  {
    if n <= 1 then [0]
    else if Counter(n - 1, interval) == interval then Starts(n - 1, interval) + [n - 1]
    else Starts(n - 1, interval)
  }

  // The length of the longest common prefix.
  function CommonPrefix(a: Bytes, b: Bytes): (n: nat)
    ensures n <= |a| && n <= |b| && a[..n] == b[..n]
    ensures n < |a| && n < |b| ==> a[n] != b[n]
  {
    if a == [] || b == [] || a[0] != b[0] then 0
    else
      var n := CommonPrefix(a[1..], b[1..]);
      assert a[..1 + n] == [a[0]] + a[1..][..n] && b[..1 + n] == [b[0]] + b[1..][..n];
      1 + n
  }

  function LastKey(pairs: seq<Pair>): Bytes {
    if pairs == [] then [] else pairs[|pairs| - 1].key
  }

  // How much of the i-th key is shared with the one before.
  function SharedBy(pairs: seq<Pair>, i: nat, interval: nat): (n: nat)
    requires i < |pairs| && interval >= 1
    ensures n <= |pairs[i].key| && n <= |LastKey(pairs[..i])| && pairs[i].key[..n] == LastKey(pairs[..i])[..n]
  {
    if IsRestart(i, interval) then 0 else CommonPrefix(LastKey(pairs[..i]), pairs[i].key)
  }

  function EntryBytes(shared: nat, pair: Pair): (s: Bytes)
    requires shared <= |pair.key|
  {
    Varint(shared % TWO_32) + Varint((|pair.key| - shared) % TWO_32) + Varint(|pair.value| % TWO_32)
    + pair.key[shared..] + pair.value
  }

  function EntryAt(pairs: seq<Pair>, i: nat, interval: nat): Bytes
    requires i < |pairs| && interval >= 1
  {
    EntryBytes(SharedBy(pairs, i, interval), pairs[i])
  }

  function Buffer(pairs: seq<Pair>, interval: nat): Bytes
    requires interval >= 1
  {
    if pairs == [] then [] else Buffer(pairs[..|pairs| - 1], interval) + EntryAt(pairs, |pairs| - 1, interval)
  }

  // Where the i-th entry begins.
  function Offset(pairs: seq<Pair>, i: nat, interval: nat): nat
    requires i <= |pairs| && interval >= 1
  {
    |Buffer(pairs[..i], interval)|
  }

  function RestartOffsets(pairs: seq<Pair>, starts: seq<nat>, interval: nat): (r: seq<nat>)
    requires interval >= 1 && forall j :: 0 <= j < |starts| ==> starts[j] <= |pairs|
    ensures |r| == |starts|
  {
    seq(|starts|, j requires 0 <= j < |starts| => Offset(pairs, starts[j], interval))
  }

  function Offsets(pairs: seq<Pair>, interval: nat): (r: seq<nat>)
    requires interval >= 1
    ensures |r| == |Starts(|pairs|, interval)|
  {
    RestartOffsets(pairs, Starts(|pairs|, interval), interval)
  }

  // The finished block.
  function BlockBytes(pairs: seq<Pair>, interval: nat): Bytes
    requires interval >= 1
  {
    var offsets := Offsets(pairs, interval);
    Buffer(pairs, interval) + Fixed32Array(offsets) + Fixed32(|offsets| % TWO_32)
  }

  // ---------- Places in the buffer ----------

  lemma {:induction false} BufferPrefix(pairs: seq<Pair>, i: nat, interval: nat)
    requires i <= |pairs| && interval >= 1
    ensures Buffer(pairs[..i], interval) <= Buffer(pairs, interval)
  {
    hide EntryAt;
    if i < |pairs| {
      assert pairs[..|pairs| - 1][..i] == pairs[..i];
      BufferPrefix(pairs[..|pairs| - 1], i, interval);
    } else {
      assert pairs[..i] == pairs;
    }
  }

  lemma EntryOfPrefix(pairs: seq<Pair>, n: nat, i: nat, interval: nat)
    requires i < n <= |pairs| && interval >= 1
    ensures EntryAt(pairs[..n], i, interval) == EntryAt(pairs, i, interval)
  {
    assert pairs[..n][..i] == pairs[..i];
  }

  lemma OffsetStep(pairs: seq<Pair>, i: nat, interval: nat)
    requires i < |pairs| && interval >= 1
    ensures Buffer(pairs[..i + 1], interval) == Buffer(pairs[..i], interval) + EntryAt(pairs, i, interval)
    ensures Offset(pairs, i + 1, interval) == Offset(pairs, i, interval) + |EntryAt(pairs, i, interval)|
    ensures Offset(pairs, i, interval) + 3 <= Offset(pairs, i + 1, interval) <= |Buffer(pairs, interval)|
  {
    assert pairs[..i + 1][..i] == pairs[..i];
    EntryOfPrefix(pairs, i + 1, i, interval);
    BufferPrefix(pairs, i + 1, interval);
  }

  lemma {:induction false} OffsetsIncrease(pairs: seq<Pair>, i: nat, j: nat, interval: nat)
    requires i < j <= |pairs| && interval >= 1
    ensures Offset(pairs, i, interval) < Offset(pairs, j, interval) <= |Buffer(pairs, interval)|
  {
    hide Offset, Buffer, EntryAt;
    OffsetStep(pairs, j - 1, interval);
    if i < j - 1 { OffsetsIncrease(pairs, i, j - 1, interval); }
  }

  // The bytes of an entry are where its offset says.
  lemma EntryIsThere(pairs: seq<Pair>, i: nat, interval: nat, data: Bytes)
    requires i < |pairs| && interval >= 1 && Buffer(pairs, interval) <= data
    ensures var start, end := Offset(pairs, i, interval), Offset(pairs, i + 1, interval);
            start <= end <= |data| && data[start..end] == EntryAt(pairs, i, interval)
  {
    hide EntryAt;
    OffsetStep(pairs, i, interval);
    BufferPrefix(pairs, i + 1, interval);
    var b := Buffer(pairs[..i + 1], interval);
    assert b <= data;
    assert data[..|b|] == b;
  }

  lemma StartsGrow(n: nat, interval: nat)
    requires interval >= 1 && n >= 1
    ensures Starts(n + 1, interval) == if Counter(n, interval) == interval then Starts(n, interval) + [n] else Starts(n, interval)
  {
  }

  // Every restart entry is listed.
  lemma {:induction false} StartsAreAll(n: nat, i: nat, interval: nat)
    requires interval >= 1 && i < n && IsRestart(i, interval)
    ensures i in Starts(n, interval)
  {
    if n > 1 {
      if i == n - 1 {
        assert Starts(n, interval)[|Starts(n, interval)| - 1] == i;
      } else {
        StartsAreAll(n - 1, i, interval);
      }
    } else {
      assert Starts(n, interval)[0] == 0;
    }
  }

  // ---------- Decoding one entry (DecodeEntry in table/block.cc) ----------

  datatype Decoded = Decoded(shared: nat, nonShared: nat, valueLength: nat, keyStart: nat)

  function ThreeVarints(s: Bytes): (r: Option<(nat, nat, nat, Bytes)>)
    ensures r.Some? ==> |r.value.3| < |s|
  {
    var a := GetVarint32(s);
    if a.None? then None
    else
      var b := GetVarint32(a.value.1);
      if b.None? then None
      else
        var c := GetVarint32(b.value.1);
        if c.None? then None else Some((a.value.0, b.value.0, c.value.0, c.value.1))
  }

  function DecodeEntry(data: Bytes, p: nat, limit: nat): (r: Option<Decoded>)
    requires p <= limit <= |data|
    ensures r.Some? ==> p < r.value.keyStart && r.value.keyStart <= limit
  {
    if limit - p < 3 then None
    else
      var lengths :=
        if data[p] < 128 && data[p + 1] < 128 && data[p + 2] < 128 then
          Some((data[p] as nat, data[p + 1] as nat, data[p + 2] as nat, data[p + 3..limit]))
        else ThreeVarints(data[p..limit]);
      if lengths.None? || |lengths.value.3| < (lengths.value.1 + lengths.value.2) % TWO_32 then None
      else Some(Decoded(lengths.value.0, lengths.value.1, lengths.value.2, limit - |lengths.value.3|))
  }

  lemma ShortVarints(s: Bytes)
    requires |s| >= 3 && s[0] < 128 && s[1] < 128 && s[2] < 128
    ensures ThreeVarints(s) == Some((s[0], s[1], s[2], s[3..]))
  {
    assert s[1..][1..] == s[2..] && s[2..][1..] == s[3..];
  }

  lemma ThreeVarintsRoundTrip(a: Word32, b: Word32, c: Word32, rest: Bytes)
    ensures ThreeVarints(Varint(a) + Varint(b) + Varint(c) + rest) == Some((a, b, c, rest))
  {
    hide Varint, GetVarint32;
    Varint32RoundTrip(a, Varint(b) + (Varint(c) + rest));
    Varint32RoundTrip(b, Varint(c) + rest);
    Varint32RoundTrip(c, rest);
    assert Varint(a) + Varint(b) + Varint(c) + rest == Varint(a) + (Varint(b) + (Varint(c) + rest));
  }

  lemma DecodeIsThreeVarints(data: Bytes, p: nat, limit: nat)
    requires p <= limit <= |data| && limit - p >= 3
    ensures var lengths := ThreeVarints(data[p..limit]);
            DecodeEntry(data, p, limit) ==
              if lengths.None? || |lengths.value.3| < (lengths.value.1 + lengths.value.2) % TWO_32 then None
              else Some(Decoded(lengths.value.0, lengths.value.1, lengths.value.2, limit - |lengths.value.3|))
  {
    hide ThreeVarints;
    var s := data[p..limit];
    if data[p] < 128 && data[p + 1] < 128 && data[p + 2] < 128 {
      ShortVarints(s);
      assert s[3..] == data[p + 3..limit];
    }
  }

  lemma SplitAt(data: Bytes, p: nat, limit: nat, a: Bytes, b: Bytes, c: Bytes)
    requires p + |a| + |b| + |c| <= limit <= |data| && data[p..p + |a| + |b| + |c|] == a + b + c
    ensures data[p + |a|..p + |a| + |b|] == b && data[p + |a| + |b|..p + |a| + |b| + |c|] == c
    ensures data[p..limit] == a + data[p + |a|..limit]
  {
    var s := data[p..p + |a| + |b| + |c|];
    assert s[..|a|] == a && s[|a|..|a| + |b|] == b && s[|a| + |b|..] == c;
    assert data[p..p + |a|] == s[..|a|];
    assert data[p + |a|..p + |a| + |b|] == s[|a|..|a| + |b|];
    assert data[p + |a| + |b|..p + |a| + |b| + |c|] == s[|a| + |b|..];
  }

  // An entry in front of more data is decoded to its lengths and the place of its key.
  lemma DecodeWritten(data: Bytes, p: nat, limit: nat, shared: nat, pair: Pair)
    requires shared <= |pair.key| && |pair.key| + |pair.value| < TWO_32
    requires p + |EntryBytes(shared, pair)| <= limit <= |data|
    requires data[p..p + |EntryBytes(shared, pair)|] == EntryBytes(shared, pair)
    ensures var nonShared := |pair.key| - shared;
            var q := p + |EntryBytes(shared, pair)| - nonShared - |pair.value|;
            && DecodeEntry(data, p, limit) == Some(Decoded(shared, nonShared, |pair.value|, q))
            && data[q..q + nonShared] == pair.key[shared..]
            && data[q + nonShared..q + nonShared + |pair.value|] == pair.value
  {
    hide Varint, ThreeVarints, DecodeEntry;
    var nonShared := |pair.key| - shared;
    var head := Varint(shared) + Varint(nonShared) + Varint(|pair.value|);
    SplitAt(data, p, limit, head, pair.key[shared..], pair.value);
    ThreeVarintsRoundTrip(shared, nonShared, |pair.value|, data[p + |head|..limit]);
    DecodeIsThreeVarints(data, p, limit);
  }

  // ---------- Where the restart points are, and what an entry looks like ----------

  lemma {:induction false} CounterIs(n: nat, interval: nat)
    requires interval >= 1 && n > 0
    ensures Counter(n, interval) == (n - 1) % interval + 1
  {
    if n > 1 {
      CounterIs(n - 1, interval);
      OneMoreModulo(n - 2, interval);
    }
  }

  lemma OneMoreModulo(n: nat, d: nat)
    requires d >= 1
    ensures (n + 1) % d == if n % d + 1 == d then 0 else n % d + 1
  {
    var q, r := n / d, n % d;
    if r + 1 == d {
      assert n + 1 == d * (q + 1) + 0;
      ModuloIs(n + 1, d, q + 1, 0);
    } else {
      assert n + 1 == d * q + (r + 1);
      ModuloIs(n + 1, d, q, r + 1);
    }
  }

  lemma ModuloIs(n: nat, d: nat, q: nat, r: nat)
    requires d >= 1 && n == d * q + r && r < d
    ensures n % d == r
  {
    QuotientIs(n, d, q, r);
  }

  // Every interval-th entry is a restart point.
  lemma RestartsAreRegular(i: nat, interval: nat)
    requires interval >= 1
    ensures IsRestart(i, interval) <==> i % interval == 0
  {
    if i > 0 {
      CounterIs(i, interval);
      OneMoreModulo(i - 1, interval);
    }
  }

  // Short lengths take one byte each: shared, not shared, value.
  lemma ShortEntryLayout(shared: nat, pair: Pair)
    requires shared <= |pair.key| < 128 && |pair.value| < 128
    ensures EntryBytes(shared, pair) == [shared, |pair.key| - shared, |pair.value|] + pair.key[shared..] + pair.value
  {
  }
}
