/** Compressed index lists: `appendIndex` builds them, `InRanges` reads them. */
module IndexRanges {

  datatype Range = Range(first: int, last: int)

  /** `InRanges`. */
  predicate InRanges(ranges: seq<Range>, idx: int) {
    exists i :: 0 <= i < |ranges| && ranges[i].first <= idx <= ranges[i].last
  }

  method Contains(ranges: seq<Range>, idx: int) returns (found: bool)
    ensures found == InRanges(ranges, idx)
  {
    var i := 0;
    while i < |ranges|
      invariant i <= |ranges|
      invariant forall j :: 0 <= j < i ==> !(ranges[j].first <= idx <= ranges[j].last)
    {
      if ranges[i].first <= idx <= ranges[i].last { return true; }
      i := i + 1;
    }
    return false;
  }

  /** `appendIndex`. */
  function AppendIndex(ranges: seq<Range>, idx: int): seq<Range> {
    if ranges == [] || ranges[|ranges| - 1].last + 1 != idx then ranges + [Range(idx, idx)]
    else ranges[|ranges| - 1 := Range(ranges[|ranges| - 1].first, idx)]
  }

  function AppendAll(indexes: seq<int>): seq<Range> {
    if indexes == [] then [] else AppendIndex(AppendAll(indexes[..|indexes| - 1]), indexes[|indexes| - 1])
  }

  /** The ranges are not empty, ascend, and end at `last`. */
  ghost predicate Ascend(ranges: seq<Range>, last: int) {
    && (forall i :: 0 <= i < |ranges| ==> ranges[i].first <= ranges[i].last <= last)
    && (ranges != [] ==> ranges[|ranges| - 1].last == last)
  }

  lemma {:induction false} AppendIndexAdds(ranges: seq<Range>, last: int, idx: int, x: int)
    requires Ascend(ranges, last) && (ranges != [] ==> last < idx)
    ensures Ascend(AppendIndex(ranges, idx), idx)
    ensures InRanges(AppendIndex(ranges, idx), x) <==> InRanges(ranges, x) || x == idx
  {
    var r := AppendIndex(ranges, idx);
    var n := |ranges|;
    if n == 0 || ranges[n - 1].last + 1 != idx {
      assert r[n] == Range(idx, idx);
      if InRanges(ranges, x) {
        var i :| 0 <= i < n && ranges[i].first <= x <= ranges[i].last;
        assert r[i] == ranges[i];
      }
    } else {
      assert r[n - 1] == Range(ranges[n - 1].first, idx);
      if InRanges(ranges, x) {
        var i :| 0 <= i < n && ranges[i].first <= x <= ranges[i].last;
        assert if i < n - 1 then r[i] == ranges[i] else r[i].last == idx;
      }
      if InRanges(r, x) && x != idx {
        var i :| 0 <= i < n && r[i].first <= x <= r[i].last;
        assert ranges[i].first <= x <= ranges[i].last;
      }
    }
  }

  ghost predicate Rising(indexes: seq<int>) { forall i, j :: 0 <= i < j < |indexes| ==> indexes[i] < indexes[j] }

  /** For rising indexes membership in the ranges is membership in the list. */
  lemma {:induction false} RangesAreExact(indexes: seq<int>, x: int)
    requires Rising(indexes)
    ensures InRanges(AppendAll(indexes), x) <==> x in indexes
    ensures indexes != [] ==> Ascend(AppendAll(indexes), indexes[|indexes| - 1]) && AppendAll(indexes) != []
  {
    if indexes != [] {
      var n := |indexes| - 1;
      RangesAreExact(indexes[..n], x);
      AppendIndexAdds(AppendAll(indexes[..n]), if n == 0 then 0 else indexes[n - 1], indexes[n], x);
      assert indexes == indexes[..n] + [indexes[n]];
    }
  }

  /** Between two ranges at least one index is missing: there is no shorter list with these members. */
  ghost predicate Apart(ranges: seq<Range>) {
    forall i :: 0 < i < |ranges| ==> ranges[i - 1].last + 1 < ranges[i].first
  }

  lemma {:induction false} RangesAreShortest(indexes: seq<int>)
    requires Rising(indexes)
    ensures Apart(AppendAll(indexes))
  {
    if indexes != [] {
      var n := |indexes| - 1;
      var ranges := AppendAll(indexes[..n]);
      RangesAreShortest(indexes[..n]);
      RangesAreExact(indexes[..n], 0);
      if ranges != [] && ranges[|ranges| - 1].last + 1 == indexes[n] {
        var r := AppendIndex(ranges, indexes[n]);
        forall i | 0 < i < |r| ensures r[i - 1].last + 1 < r[i].first {
          assert ranges[i - 1].last + 1 < ranges[i].first;
        }
      }
    }
  }

  /** What `archiveMetadata` sees in an entry: directories and backups are ignored, an FB2 file is
      a book, anything else a dummy. */
  datatype EntryKind = Skipped | Book | Other

  function IndexesOf(kinds: seq<EntryKind>, kind: EntryKind): seq<int> {
    if kinds == [] then []
    else IndexesOf(kinds[..|kinds| - 1], kind) + if kinds[|kinds| - 1] == kind then [|kinds| - 1] else []
  }

  lemma {:induction false} RisingSnoc(front: seq<int>, n: int)
    requires Rising(front) && forall i :: 0 <= i < |front| ==> front[i] < n
    ensures Rising(front + [n]) && forall i :: 0 <= i < |front + [n]| ==> (front + [n])[i] <= n
    ensures forall x :: x in front + [n] <==> x in front || x == n
  {
  }

  lemma {:induction false} IndexesAre(kinds: seq<EntryKind>, kind: EntryKind, x: int)
    ensures Rising(IndexesOf(kinds, kind))
    ensures forall i :: 0 <= i < |IndexesOf(kinds, kind)| ==> IndexesOf(kinds, kind)[i] < |kinds|
    ensures x in IndexesOf(kinds, kind) <==> 0 <= x < |kinds| && kinds[x] == kind
  {
    if kinds != [] {
      var n := |kinds| - 1;
      var front := IndexesOf(kinds[..n], kind);
      IndexesAre(kinds[..n], kind, x);
      if kinds[n] == kind {
        RisingSnoc(front, n);
      } else {
        assert IndexesOf(kinds, kind) == front;
      }
    }
  }

  lemma {:induction false} IndexesNext(kinds: seq<EntryKind>, idx: nat, kind: EntryKind)
    requires idx < |kinds|
    ensures IndexesOf(kinds[..idx + 1], kind)
         == if kinds[idx] == kind then IndexesOf(kinds[..idx], kind) + [idx] else IndexesOf(kinds[..idx], kind)
  {
    assert kinds[..idx + 1][..idx] == kinds[..idx];
  }

  method Compress(indexes: seq<int>) returns (ranges: seq<Range>)
    ensures ranges == AppendAll(indexes)
  {
    ranges := [];
    var i := 0;
    while i < |indexes|
      invariant i <= |indexes| && ranges == AppendAll(indexes[..i])
    {
      assert indexes[..i + 1][..i] == indexes[..i];
      ranges := AppendIndex(ranges, indexes[i]);
      i := i + 1;
    }
    assert indexes[..i] == indexes;
  }

  lemma {:induction false} AppendAllSnoc(indexes: seq<int>, idx: int)
    ensures AppendAll(indexes + [idx]) == AppendIndex(AppendAll(indexes), idx)
  {
    assert (indexes + [idx])[..|indexes|] == indexes;
  }

  lemma {:induction false} NoIndexes(kinds: seq<EntryKind>)
    ensures forall kind :: IndexesOf(kinds[..0], kind) == []
    ensures AppendAll([]) == []
  {
  }

  /** `archiveMetadata`: an index lies in the ignored or dummy ranges exactly when its entry is of
      that kind. */
  method ArchiveMetadata(kinds: seq<EntryKind>) returns (ignored: seq<Range>, dummy: seq<Range>, fb2Entries: nat)
    ensures forall x :: InRanges(ignored, x) <==> 0 <= x < |kinds| && kinds[x].Skipped?
    ensures forall x :: InRanges(dummy, x) <==> 0 <= x < |kinds| && kinds[x].Other?
    ensures fb2Entries == |IndexesOf(kinds, Book)|
  {
    hide InRanges, AppendIndex, IndexesOf, AppendAll;
    NoIndexes(kinds);
    ignored, fb2Entries := [], 0;
    var dummies: seq<int> := [];
    var idx := 0;
    while idx < |kinds|
      invariant idx <= |kinds|
      invariant ignored == AppendAll(IndexesOf(kinds[..idx], Skipped))
      invariant dummies == IndexesOf(kinds[..idx], Other)
      invariant fb2Entries == |IndexesOf(kinds[..idx], Book)|
    {
      var kind := kinds[idx];
      IndexesNext(kinds, idx, Skipped);
      IndexesNext(kinds, idx, Book);
      IndexesNext(kinds, idx, Other);
      if kind.Skipped? {
        AppendAllSnoc(IndexesOf(kinds[..idx], Skipped), idx);
        ignored := AppendIndex(ignored, idx);
      } else if kind.Book? {
        fb2Entries := fb2Entries + 1;
      } else {
        dummies := dummies + [idx];
      }
      idx := idx + 1;
    }
    assert kinds[..idx] == kinds;
    dummy := Compress(dummies);
    KindRanges(kinds, Skipped);
    KindRanges(kinds, Other);
  }

  lemma {:induction false} KindRanges(kinds: seq<EntryKind>, kind: EntryKind)
    ensures forall x :: InRanges(AppendAll(IndexesOf(kinds, kind)), x) <==> 0 <= x < |kinds| && kinds[x] == kind
  {
    hide InRanges, AppendAll, IndexesOf;
    forall x ensures InRanges(AppendAll(IndexesOf(kinds, kind)), x) <==> 0 <= x < |kinds| && kinds[x] == kind {
      IndexesAre(kinds, kind, x);
      RangesAreExact(IndexesOf(kinds, kind), x);
    }
  }
}
