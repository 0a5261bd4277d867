// The runs under a merging iterator (Version::AddIterators and
// VersionSet::MakeInputIterator in db/version_set.cc): memtables, one run for every
// level-0 file, and one concatenated run for a sorted level.
module InputRuns {
  import opened DbFormat
  import opened Tables
  import opened VersionSearch
  import opened Merger

  predicate NoSharedKey(a: seq<Entry>, b: seq<Entry>) {
    forall x, y :: x in a && y in b ==> x.key != y.key
  }

  // Sorted runs, no two of which have a key in common.
  ghost predicate Tidy(runs: seq<seq<Entry>>) {
    && (forall i :: 0 <= i < |runs| ==> Sorted(runs[i]))
    && (forall i, j :: 0 <= i < j < |runs| ==> NoSharedKey(runs[i], runs[j]))
  }

  ghost predicate InSome(runs: seq<seq<Entry>>, e: Entry) {
    exists i :: 0 <= i < |runs| && e in runs[i]
  }

  ghost predicate InSomeFile(files: seq<File>, e: Entry) {
    exists f :: f in files && e in f.entries
  }

  lemma InSomeOfBoth(a: seq<seq<Entry>>, b: seq<seq<Entry>>, e: Entry)
    ensures InSome(a + b, e) <==> InSome(a, e) || InSome(b, e)
  {
    if InSome(b, e) {
      var i :| 0 <= i < |b| && e in b[i];
      assert (a + b)[|a| + i] == b[i];
    }
    if InSome(a, e) {
      var i :| 0 <= i < |a| && e in a[i];
      assert (a + b)[i] == a[i];
    }
  }

  lemma TidyTogether(a: seq<seq<Entry>>, b: seq<seq<Entry>>)
    requires Tidy(a) && Tidy(b)
    requires forall x, y :: InSome(a, x) && InSome(b, y) ==> x.key != y.key
    ensures Tidy(a + b)
  {
    var c := a + b;
    forall i, j | 0 <= i < j < |c| ensures NoSharedKey(c[i], c[j]) {
      forall x: Entry, y: Entry | x in c[i] && y in c[j] ensures x.key != y.key {
        if i < |a| <= j {
          assert InSome(a, x) && y in b[j - |a|];
        } else if j < |a| {
          assert NoSharedKey(a[i], a[j]);
        } else {
          assert NoSharedKey(b[i - |a|], b[j - |a|]);
        }
      }
    }
  }

  // What the concatenating iterator of a sorted level walks over.
  function Concat(files: seq<File>): seq<Entry> {
    if files == [] then [] else files[0].entries + Concat(files[1..])
  }

  lemma {:induction false} ConcatHolds(files: seq<File>, e: Entry)
    ensures e in Concat(files) <==> InSomeFile(files, e)
  {
    if files != [] {
      assert files == [files[0]] + files[1..];
      ConcatHolds(files[1..], e);
    }
  }

  lemma BeforeKeepsOrder(f: File, g: File, x: Entry, y: Entry)
    requires WellFormed(f) && WellFormed(g) && Before(f, g)
    requires x in f.entries && y in g.entries
    ensures Less(x.key, y.key)
  {
    FileRange(f, x);
    FileRange(g, y);
    LessIsTotalOrder(x.key, f.largest, g.smallest);
    LessIsTotalOrder(x.key, g.smallest, y.key);
  }

  lemma {:induction false} ConcatIsSorted(files: seq<File>)
    requires Disjoint(files) && forall f :: f in files ==> WellFormed(f)
    ensures Sorted(Concat(files))
  {
    if files != [] {
      var head, tail := files[0].entries, Concat(files[1..]);
      ConcatIsSorted(files[1..]);
      forall x, y | x in head && y in tail ensures Less(x.key, y.key) {
        ConcatHolds(files[1..], y);
        var g :| g in files[1..] && y in g.entries;
        BeforeKeepsOrder(files[0], g, x, y);
      }
      SortedTogether(head, tail);
    }
  }

  lemma SortedTogether(a: seq<Entry>, b: seq<Entry>)
    requires Sorted(a) && Sorted(b) && forall x, y :: x in a && y in b ==> Less(x.key, y.key)
    ensures Sorted(a + b)
  {
    forall i, j | 0 <= i < j < |a + b| ensures Less((a + b)[i].key, (a + b)[j].key) {
      if i < |a| <= j { assert a[i] in a && b[j - |a|] in b; }
    }
  }

  function RunsOf(level: nat, files: seq<File>): (runs: seq<seq<Entry>>) {
    if level == 0 then seq(|files|, i requires 0 <= i < |files| => files[i].entries)
    else if files == [] then []
    else [Concat(files)]
  }

  // Different positions of level 0 hold different files.
  lemma LevelZeroRuns(files: seq<File>)
    requires NumberedByAge(files) && Ordered(files) && forall f :: f in files ==> WellFormed(f)
    ensures Tidy(RunsOf(0, files))
  {
    var runs := RunsOf(0, files);
    forall i, j | 0 <= i < j < |runs| ensures NoSharedKey(runs[i], runs[j]) {
      assert SmallerFile(files[i], files[j]);
      if files[i].number > files[j].number {
        assert Newer(files[i].entries, files[j].entries);
      } else if files[j].number > files[i].number {
        assert Newer(files[j].entries, files[i].entries);
      }
    }
  }

  lemma RunsHold(level: nat, files: seq<File>, e: Entry)
    ensures InSome(RunsOf(level, files), e) <==> InSomeFile(files, e)
  {
    var runs := RunsOf(level, files);
    if level == 0 {
      if InSomeFile(files, e) {
        var f :| f in files && e in f.entries;
        var i :| 0 <= i < |files| && files[i] == f;
        assert e in runs[i];
      }
    } else {
      ConcatHolds(files, e);
      if files != [] { assert runs[0] == Concat(files); }
    }
  }

  // What one level contributes.
  lemma RunsAreTidy(level: nat, files: seq<File>)
    requires forall f :: f in files ==> WellFormed(f)
    requires if level == 0 then NumberedByAge(files) && Ordered(files) else Disjoint(files)
    ensures Tidy(RunsOf(level, files))
  {
    if level == 0 { LevelZeroRuns(files); } else { ConcatIsSorted(files); }
  }

  // Every tidy set of runs has a sorted union.
  lemma UnionOfRun(es: seq<Entry>, run: seq<Entry>) returns (union: seq<Entry>)
    requires Sorted(es) && Sorted(run) && NoSharedKey(es, run)
    ensures Sorted(union) && forall e :: e in union <==> e in es || e in run
  {
    union := es;
    for i := 0 to |run|
      invariant Sorted(union) && forall e :: e in union <==> e in es || e in run[..i]
    {
      assert run[..i + 1] == run[..i] + [run[i]];
      forall o | o in union ensures o.key != run[i].key {
        if o !in es {
          var j :| 0 <= j < i && run[j] == o;
          SortedAt(run, j, i);
        }
      }
      InsertKeepsSorted(union, run[i]);
      union := Insert(union, run[i]);
    }
    assert run[..|run|] == run;
  }

  lemma UnionOfRuns(runs: seq<seq<Entry>>) returns (union: seq<Entry>)
    requires Tidy(runs)
    ensures Sorted(union) && forall e :: e in union <==> InSome(runs, e)
  {
    union := [];
    for i := 0 to |runs|
      invariant Sorted(union) && forall e :: e in union <==> InSome(runs[..i], e)
    {
      forall x, y | x in union && y in runs[i] ensures x.key != y.key {
        var j :| 0 <= j < i && x in runs[..i][j];
        assert NoSharedKey(runs[j], runs[i]);
      }
      forall e ensures InSome(runs[..i + 1], e) <==> InSome(runs[..i], e) || e in runs[i] {
        assert runs[..i + 1] == runs[..i] + [runs[i]];
        InSomeOfBoth(runs[..i], [runs[i]], e);
        assert [runs[i]][0] == runs[i];
      }
      union := UnionOfRun(union, runs[i]);
    }
    assert runs[..|runs|] == runs;
  }

  // NewMergingIterator over the runs.
  method NewMergingIterator(runs: seq<seq<Entry>>) returns (it: MergingIterator)
    requires Tidy(runs)
    ensures fresh(it) && it.Ok() && Sorted(it.merged) && forall e :: e in it.merged <==> InSome(runs, e)
  {
    ghost var union := UnionOfRuns(runs);
    ghost var cursors := seq(|runs|, i requires 0 <= i < |runs| => Cursor(runs[i], |runs[i]|));
    CursorsFormUnion(runs, cursors, union);
    it := new MergingIterator(runs, union);
  }

  lemma CursorsFormUnion(runs: seq<seq<Entry>>, cursors: seq<Cursor>, union: seq<Entry>)
    requires Tidy(runs) && Sorted(union) && forall e :: e in union <==> InSome(runs, e)
    requires |cursors| == |runs| && forall i :: 0 <= i < |runs| ==> cursors[i] == Cursor(runs[i], |runs[i]|)
    ensures Union(cursors, union)
  {
    forall e ensures InRuns(cursors, e) <==> InSome(runs, e) {
      if InSome(runs, e) {
        var i :| 0 <= i < |runs| && e in runs[i];
        assert e in cursors[i].run;
      }
    }
    forall i, j, a, b | 0 <= i < j < |cursors| && 0 <= a < |cursors[i].run| && 0 <= b < |cursors[j].run|
      ensures cursors[i].run[a].key != cursors[j].run[b].key
    {
      assert NoSharedKey(runs[i], runs[j]);
    }
  }
}
