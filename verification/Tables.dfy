// Sorted runs of entries: the contents of a memtable or of a table file, and the
// seek that both kinds of lookup are built on (db/memtable.cc, table/table.cc).
module Tables {
  import opened DbFormat

  predicate Sorted(es: seq<Entry>) {
    forall i, j :: 0 <= i < j < |es| ==> Less(es[i].key, es[j].key)
  }

  lemma SortedAt(es: seq<Entry>, i: nat, j: nat)
    requires Sorted(es) && i < |es| && j < |es|
    ensures i < j ==> Less(es[i].key, es[j].key)
    ensures j < i ==> Less(es[j].key, es[i].key)
  {
  }

  // Index of the first entry at or after the key; |es| if there is none.
  function SeekIndex(es: seq<Entry>, key: InternalKey): (i: nat)
    ensures i <= |es|
    ensures forall j :: 0 <= j < i ==> Less(es[j].key, key)
    ensures i < |es| ==> !Less(es[i].key, key)
  {
    if es == [] || !Less(es[0].key, key) then 0 else 1 + SeekIndex(es[1..], key)
  }

  // MemTable::Get, and TableCache::Get with the SaveValue callback: seek to the
  // lookup key and accept the entry found there if its user key is the one wanted.
  function SeekEntry(es: seq<Entry>, user: UserKey, sequence: SequenceNumber): Option<Entry> {
    var i := SeekIndex(es, SeekKey(user, sequence));
    if i < |es| && es[i].key.user == user then Some(es[i]) else None
  }

  // The seek finds the newest entry for the user key at or below the sequence number.
  lemma SeekEntryIsNewest(es: seq<Entry>, user: UserKey, sequence: SequenceNumber)
    requires Sorted(es)
    ensures match SeekEntry(es, user, sequence)
            case Some(e) =>
              && e in es && e.key.user == user && e.key.sequence <= sequence
              && (forall o :: o in es && o.key.user == user && o.key.sequence <= sequence ==> o.key.sequence <= e.key.sequence)
            case None =>
              forall o :: o in es && o.key.user == user ==> o.key.sequence > sequence
  {
    var key := SeekKey(user, sequence);
    var i := SeekIndex(es, key);
    forall o | o in es && o.key.user == user && o.key.sequence <= sequence
      ensures i < |es| && es[i].key.user == user && o.key.sequence <= es[i].key.sequence
    {
      var j :| 0 <= j < |es| && es[j] == o;
      assert !Less(o.key, key);
      assert i <= j;
      if i < j { assert Less(es[i].key, es[j].key); }
    }
  }

  // MemTable::Add: the skip list keeps its entries in internal-key order.
  function Insert(es: seq<Entry>, e: Entry): seq<Entry> {
    var i := SeekIndex(es, e.key);
    es[..i] + [e] + es[i..]
  }

  lemma InsertKeepsSorted(es: seq<Entry>, e: Entry)
    requires Sorted(es)
    requires forall o :: o in es ==> o.key != e.key
    ensures Sorted(Insert(es, e))
    ensures forall o :: o in Insert(es, e) <==> o in es || o == e
  {
    var i := SeekIndex(es, e.key);
    var r := Insert(es, e);
    assert forall o :: o in es <==> o in es[..i] || o in es[i..] by { assert es == es[..i] + es[i..]; }
    forall j, k | 0 <= j < k < |r| ensures Less(r[j].key, r[k].key) {
      assert i < |es| ==> es[i] in es;
      LessIsTotalOrder(e.key, if i < |es| then es[i].key else e.key, e.key);
      if j < i && k > i { assert Less(es[j].key, es[k - 1].key); }
      if j < i && k < i { assert Less(es[j].key, es[k].key); }
      if j > i { assert Less(es[j - 1].key, es[k - 1].key); }
      if j == i && k > i + 1 { assert Less(es[i].key, es[k - 1].key); }
    }
  }

  // Every entry of a is newer than every entry of b for the same user key.
  predicate Newer(a: seq<Entry>, b: seq<Entry>) {
    forall x, y :: x in a && y in b && x.key.user == y.key.user ==> x.key.sequence > y.key.sequence
  }

  const NUM_LEVELS := 7

  // FileMetaData, together with the contents of the table file it names.
  datatype File = File(number: nat, size: nat, smallest: InternalKey, largest: InternalKey, entries: seq<Entry>)

  function MakeFile(number: nat, size: nat, es: seq<Entry>): File
    requires |es| > 0
  {
    File(number, size, es[0].key, es[|es| - 1].key, es)
  }

  // BuildTable and the compaction loop record the first and the last key written.
  predicate WellFormed(f: File) {
    |f.entries| > 0 && Sorted(f.entries) && f == MakeFile(f.number, f.size, f.entries)
  }

  lemma FileRange(f: File, e: Entry)
    requires WellFormed(f) && e in f.entries
    ensures !Less(e.key, f.smallest) && !Less(f.largest, e.key)
    ensures f.smallest.user <= e.key.user <= f.largest.user
  {
    var i :| 0 <= i < |f.entries| && f.entries[i] == e;
    if i > 0 { assert Less(f.entries[0].key, f.entries[i].key); }
    if i < |f.entries| - 1 { assert Less(f.entries[i].key, f.entries[|f.entries| - 1].key); }
  }

  // The file's range lies wholly before the other's, as internal keys.
  predicate Before(f: File, g: File) {
    Less(f.largest, g.smallest)
  }

  // Levels 1 and up: sorted files whose ranges do not overlap.
  predicate Disjoint(fs: seq<File>) {
    forall i, j :: 0 <= i < j < |fs| ==> Before(fs[i], fs[j])
  }

  function Numbers(fs: seq<File>): set<nat> {
    set f | f in fs :: f.number
  }

  // A level after the files with the given numbers are deleted from it.
  function Remaining(fs: seq<File>, gone: set<nat>): (r: seq<File>)
    ensures forall f :: f in r <==> f in fs && f.number !in gone
  {
    if fs == [] then []
    else if fs[0].number in gone then Remaining(fs[1..], gone)
    else [fs[0]] + Remaining(fs[1..], gone)
  }

  // The order in which VersionSet::Builder keeps the files of a level.
  predicate SmallerFile(f: File, g: File) {
    Less(f.smallest, g.smallest) || (f.smallest == g.smallest && f.number < g.number)
  }

  predicate Ordered(fs: seq<File>) {
    forall i, j :: 0 <= i < j < |fs| ==> SmallerFile(fs[i], fs[j])
  }

  function InsertFile(fs: seq<File>, f: File): (r: seq<File>)
    ensures forall g :: g in r <==> g in fs || g == f
    ensures |r| == |fs| + 1
  {
    if fs == [] || SmallerFile(f, fs[0]) then [f] + fs
    else
      assert fs == [fs[0]] + fs[1..];
      [fs[0]] + InsertFile(fs[1..], f)
  }

  function AddFiles(fs: seq<File>, added: seq<File>): (r: seq<File>)
    ensures forall g :: g in r <==> g in fs || g in added
    decreases added
  {
    if added == [] then fs
    else
      assert added == [added[0]] + added[1..];
      AddFiles(InsertFile(fs, added[0]), added[1..])
  }

  lemma {:induction false} RemainingKeepsOrder(fs: seq<File>, gone: set<nat>)
    requires Ordered(fs)
    ensures Ordered(Remaining(fs, gone))
  {
    if fs != [] {
      RemainingKeepsOrder(fs[1..], gone);
      var rest := Remaining(fs[1..], gone);
      assert forall i :: 0 <= i < |rest| ==> rest[i] in fs[1..];
    }
  }

  lemma {:induction false} RemainingKeepsDisjoint(fs: seq<File>, gone: set<nat>)
    requires Disjoint(fs)
    ensures Disjoint(Remaining(fs, gone))
  {
    if fs != [] {
      RemainingKeepsDisjoint(fs[1..], gone);
      var rest := Remaining(fs[1..], gone);
      assert forall i :: 0 <= i < |rest| ==> rest[i] in fs[1..];
    }
  }

  lemma {:induction false} InsertFileKeepsOrder(fs: seq<File>, f: File)
    requires Ordered(fs)
    requires forall g :: g in fs ==> g.smallest != f.smallest || g.number != f.number
    ensures Ordered(InsertFile(fs, f))
    ensures var r := InsertFile(fs, f);
            forall i, j :: 0 <= i < j < |r| ==>
              Less(r[i].smallest, r[j].smallest) || (r[i].smallest == r[j].smallest && r[i].number < r[j].number)
  {
    if fs == [] || SmallerFile(f, fs[0]) {
    } else {
      InsertFileKeepsOrder(fs[1..], f);
      var rest := InsertFile(fs[1..], f);
      assert forall i :: 0 <= i < |rest| ==> rest[i] in rest;
    }
  }

  // A file that fits between the others of a sorted level goes in at its place.
  lemma {:induction false} InsertFileKeepsDisjoint(fs: seq<File>, f: File)
    requires Disjoint(fs) && WellFormed(f)
    requires forall g :: g in fs ==> WellFormed(g) && (Before(g, f) || Before(f, g))
    ensures Disjoint(InsertFile(fs, f))
  {
    if fs == [] {
    } else {
      assert fs[0] in fs;
      FileRange(f, f.entries[0]);
      FileRange(fs[0], fs[0].entries[0]);
      if SmallerFile(f, fs[0]) {
        assert forall g :: g in fs ==> Before(f, g) by {
          forall g | g in fs ensures Before(f, g) {
            FileRange(g, g.entries[0]);
            var i :| 0 <= i < |fs| && fs[i] == g;
            if i > 0 { assert Before(fs[0], fs[i]); }
          }
        }
      } else {
        InsertFileKeepsDisjoint(fs[1..], f);
        var rest := InsertFile(fs[1..], f);
        assert forall i :: 0 <= i < |rest| ==> rest[i] in rest;
      }
    }
  }

  lemma {:induction false} AddFilesKeepsDisjoint(fs: seq<File>, added: seq<File>)
    requires Disjoint(fs) && Disjoint(added)
    requires forall g :: g in fs || g in added ==> WellFormed(g)
    requires forall g, f :: g in fs && f in added ==> Before(g, f) || Before(f, g)
    ensures Disjoint(AddFiles(fs, added))
    decreases added
  {
    if added != [] {
      var next := InsertFile(fs, added[0]);
      InsertFileKeepsDisjoint(fs, added[0]);
      forall g, f | g in next && f in added[1..] ensures Before(g, f) || Before(f, g) {
        if g == added[0] {
          var i :| 0 <= i < |added[1..]| && added[1..][i] == f;
          assert Before(added[0], added[i + 1]);
        }
      }
      AddFilesKeepsDisjoint(next, added[1..]);
    }
  }
}
