/** What a rollup pass copies: under a period policy every eligible key exactly once, under the
    size policy the same exactly when first occurrences of keys come with rising ids. */
module RollupConservation {
  import opened Wrappers
  import opened RollupEntries
  import opened RollupPass

  /** An entry a pass has to copy: not empty, numeric, and above everything stored before. */
  predicate Eligible(e: Entry, end: int) { Usable(e) && e.id > end }

  ghost predicate HasKey(es: seq<Entry>, key: string) {
    exists i :: 0 <= i < |es| && es[i].key == key
  }

  /** The first eligible entry of every key, in order. */
  ghost function Distinct(end: int, es: seq<Entry>): seq<Entry> {
    if es == [] then []
    else
      var d := Distinct(end, es[..|es| - 1]);
      var e := es[|es| - 1];
      if Eligible(e, end) && !HasKey(d, e.key) then d + [e] else d
  }

  ghost predicate UniqueKeys(es: seq<Entry>) {
    forall i, j :: 0 <= i < j < |es| ==> es[i].key != es[j].key
  }

  ghost predicate EligibleKey(es: seq<Entry>, end: int, key: string) {
    exists i :: 0 <= i < |es| && Eligible(es[i], end) && es[i].key == key
  }

  /** `Distinct` holds every eligible key once, nothing else, and takes it from the updates. */
  lemma {:induction false} DistinctIsExact(end: int, es: seq<Entry>)
    ensures UniqueKeys(Distinct(end, es))
    ensures forall key :: HasKey(Distinct(end, es), key) <==> EligibleKey(es, end, key)
    ensures forall i :: 0 <= i < |Distinct(end, es)| ==>
      Distinct(end, es)[i] in es && Eligible(Distinct(end, es)[i], end)
  {
    if es != [] {
      var n := |es| - 1;
      DistinctIsExact(end, es[..n]);
      forall key ensures HasKey(Distinct(end, es), key) <==> EligibleKey(es, end, key) {
        EligibleSnoc(end, es, key);
        KeysAppend(Distinct(end, es[..n]), es[n], key);
      }
    }
  }

  lemma {:induction false} EligibleSnoc(end: int, es: seq<Entry>, key: string)
    requires es != []
    ensures var p, e := es[..|es| - 1], es[|es| - 1];
            EligibleKey(es, end, key) <==> EligibleKey(p, end, key) || (Eligible(e, end) && e.key == key)
  {
    var n := |es| - 1;
    if EligibleKey(es[..n], end, key) {
      var i :| 0 <= i < n && Eligible(es[..n][i], end) && es[..n][i].key == key;
      assert es[i] == es[..n][i];
    }
    if EligibleKey(es, end, key) {
      var i :| 0 <= i < |es| && Eligible(es[i], end) && es[i].key == key;
      if i < n { assert es[..n][i] == es[i]; }
    }
  }

  lemma {:induction false} KeysAppend(d: seq<Entry>, e: Entry, key: string)
    ensures HasKey(d + [e], key) <==> HasKey(d, key) || key == e.key
  {
    var all := d + [e];
    assert all[|d|] == e;
    if HasKey(d, key) {
      var i :| 0 <= i < |d| && d[i].key == key;
      assert all[i] == d[i];
    }
  }

  /** Everything a pass has written so far, in order. */
  function Contents(done: seq<Archive>): seq<Entry> {
    if done == [] then [] else Contents(done[..|done| - 1]) + done[|done| - 1].entries
  }

  function Written(s: State): seq<Entry> { Contents(s.done) + s.entries }

  lemma {:induction false} ContentsAppend(done: seq<Archive>, a: Archive)
    ensures Contents(done + [a]) == Contents(done) + a.entries
  {
    assert (done + [a])[..|done|] == done;
  }

  lemma {:induction false} WrittenStep(s: State, e: Entry, existing: bool, policy: Policy)
    ensures Written(Copy(s, e, existing, policy)) == Written(s) + [e]
  {
    var t := Append(s, e, existing, policy);
    assert t.entries == s.entries + [e] && t.done == s.done;
    ContentsAppend(t.done, Archive(t.first, t.last, t.entries));
    assert Contents(s.done) + (s.entries + [e]) == Written(s) + [e];
  }

  // ---------------------------------------------------------------- period policies

  /** Under a period policy the pass appends every eligible key exactly once, keeps what was
      there and finalizes nothing. */
  lemma {:induction false} PeriodConserves(s: State, es: seq<Entry>)
    requires s.keys == {}
    ensures var r := Run(s, es, false, ByPeriod);
            && r.entries == s.entries + Distinct(s.end, es)
            && r.done == s.done && r.end == s.end
            && (r.copied <==> s.copied || Distinct(s.end, es) != [])
            && forall key :: key in r.keys <==> HasKey(Distinct(s.end, es), key)
  {
    if es != [] {
      var n := |es| - 1;
      PeriodConserves(s, es[..n]);
      var r, d := Run(s, es[..n], false, ByPeriod), Distinct(s.end, es[..n]);
      if Eligible(es[n], s.end) && !HasKey(d, es[n].key) {
        forall key ensures HasKey(d + [es[n]], key) <==> HasKey(d, key) || key == es[n].key {
          KeysAppend(d, es[n], key);
        }
      }
    }
  }

  // ---------------------------------------------------------------- the size policy

  ghost predicate KeysNameIDs(es: seq<Entry>) {
    forall i, j :: 0 <= i < |es| && 0 <= j < |es| && es[i].key == es[j].key ==> es[i].id == es[j].id
  }

  /** Entries of one family meet that. */
  lemma {:induction false} FamilyKeysNameIDs(es: seq<Entry>, family: Family)
    requires forall i :: 0 <= i < |es| ==> Made(es[i], family)
    ensures KeysNameIDs(es)
  {
    forall i, j | 0 <= i < |es| && 0 <= j < |es| && es[i].key == es[j].key ensures es[i].id == es[j].id {
      KeyNamesID(es[i], es[j], family);
    }
  }

  /** Entry n is the first eligible entry with its key. */
  ghost predicate FirstOfKey(end: int, es: seq<Entry>, n: nat)
    requires n < |es|
  {
    Eligible(es[n], end) && !EligibleKey(es[..n], end, es[n].key)
  }

  ghost predicate AboveAll(end: int, es: seq<Entry>, id: int) {
    forall i :: 0 <= i < |es| && Eligible(es[i], end) ==> es[i].id < id
  }

  /** Every key shows up first with an id above all ids before it. */
  ghost predicate Rising(end: int, es: seq<Entry>) {
    forall n :: 0 <= n < |es| && FirstOfKey(end, es, n) ==> AboveAll(end, es[..n], es[n].id)
  }

  lemma {:induction false} RisingPrefix(end: int, es: seq<Entry>)
    requires es != [] && Rising(end, es)
    ensures Rising(end, es[..|es| - 1])
  {
    var p := es[..|es| - 1];
    forall n | 0 <= n < |p| && FirstOfKey(end, p, n) ensures AboveAll(end, p[..n], p[n].id) {
      assert p[..n] == es[..n] && p[n] == es[n];
      assert FirstOfKey(end, es, n);
    }
  }

  /** n is at most the end, or some entry already copied reaches it. */
  ghost predicate Bounded(n: int, end: int, d: seq<Entry>) {
    n <= end || exists i :: 0 <= i < |d| && n <= d[i].id
  }

  /** A pass has copied d: it will skip the keys of d and nothing else above the old end. */
  ghost predicate Tracks(s: State, end: int, d: seq<Entry>) {
    && end <= s.end
    && Bounded(s.end, end, d) && Bounded(s.last, end, d)
    && (forall i :: 0 <= i < |d| ==> d[i].id <= s.end || d[i].key in s.keys)
    && (forall key :: key in s.keys ==> HasKey(d, key))
  }

  lemma {:induction false} TracksCopy(s: State, end: int, d: seq<Entry>, e: Entry, policy: Policy)
    requires Tracks(s, end, d) && Eligible(e, end)
    requires forall i :: 0 <= i < |d| ==> d[i].id < e.id
    ensures e.id > s.end && e.id > s.last
    ensures Tracks(Copy(s, e, false, policy), end, d + [e])
  {
    var t := Copy(s, e, false, policy);
    var all := d + [e];
    assert all[|d|] == e;
    forall key | key in t.keys ensures HasKey(all, key) {
      KeysAppend(d, e, key);
    }
    assert Bounded(e.id, end, all);
    if t.end == s.end { BoundedMore(s.end, end, d, e); }
    BoundedMore(0, end, d, e);
    assert e.id > 0;
    if t.last == 0 { assert Bounded(t.last, end, all); }
  }

  lemma {:induction false} BoundedMore(n: int, end: int, d: seq<Entry>, e: Entry)
    ensures Bounded(n, end, d) ==> Bounded(n, end, d + [e])
  {
    if Bounded(n, end, d) && n > end {
      var i :| 0 <= i < |d| && n <= d[i].id;
      assert (d + [e])[i] == d[i];
    }
  }

  ghost predicate Ready(s: State) { s.keys == {} && s.last <= s.end }

  /** With rising first occurrences a pass under any policy conserves every eligible key,
      however often it finalizes on the way. */
  lemma {:induction false} RisingConserves(s: State, es: seq<Entry>, policy: Policy)
    requires Ready(s) && KeysNameIDs(es) && Rising(s.end, es)
    ensures Written(Run(s, es, false, policy)) == Written(s) + Distinct(s.end, es)
    ensures Tracks(Run(s, es, false, policy), s.end, Distinct(s.end, es))
  {
    if es != [] {
      var n := |es| - 1;
      RisingPrefix(s.end, es);
      RisingConserves(s, es[..n], policy);
      RisingStep(s, es, policy);
    }
  }

  lemma {:induction false} SkipsIneligible(r: State, end: int, d: seq<Entry>, e: Entry, policy: Policy)
    requires Tracks(r, end, d) && !Eligible(e, end)
    ensures Step(r, e, false, policy) == r
  {
  }

  lemma {:induction false} SkipsKnown(r: State, end: int, d: seq<Entry>, e: Entry, policy: Policy)
    requires Tracks(r, end, d) && HasKey(d, e.key)
    requires forall i :: 0 <= i < |d| && d[i].key == e.key ==> d[i].id == e.id
    ensures Step(r, e, false, policy) == r
  {
    hide Usable, Copy, Bounded;
    var i :| 0 <= i < |d| && d[i].key == e.key;
    assert d[i].id <= r.end || d[i].key in r.keys;
  }

  lemma {:induction false} TakesNew(r: State, end: int, d: seq<Entry>, e: Entry, policy: Policy)
    requires Tracks(r, end, d) && Eligible(e, end) && !HasKey(d, e.key)
    requires forall i :: 0 <= i < |d| ==> d[i].id < e.id
    ensures Written(Step(r, e, false, policy)) == Written(r) + [e]
    ensures Tracks(Step(r, e, false, policy), end, d + [e])
  {
    hide Usable, Copy, Bounded, Written, HasKey;
    TracksCopy(r, end, d, e, policy);
    assert e.key !in r.keys;
    WrittenStep(r, e, false, policy);
  }

  lemma {:induction false} NewIsAbove(end: int, es: seq<Entry>)
    requires es != [] && Rising(end, es)
    ensures var n := |es| - 1; var d := Distinct(end, es[..n]);
            Eligible(es[n], end) && !HasKey(d, es[n].key) ==> forall i :: 0 <= i < |d| ==> d[i].id < es[n].id
  {
    hide Distinct, Eligible;
    var n := |es| - 1;
    var d := Distinct(end, es[..n]);
    DistinctIsExact(end, es[..n]);
    if Eligible(es[n], end) && !HasKey(d, es[n].key) {
      assert FirstOfKey(end, es, n);
      assert AboveAll(end, es[..n], es[n].id);
    }
  }

  lemma {:induction false} KnownNamesID(end: int, es: seq<Entry>)
    requires es != [] && KeysNameIDs(es)
    ensures var n := |es| - 1; var d := Distinct(end, es[..n]);
            forall i :: 0 <= i < |d| && d[i].key == es[n].key ==> d[i].id == es[n].id
  {
    hide Distinct, Eligible, HasKey, EligibleKey;
    var n := |es| - 1;
    var d := Distinct(end, es[..n]);
    DistinctIsExact(end, es[..n]);
    forall i | 0 <= i < |d| && d[i].key == es[n].key ensures d[i].id == es[n].id {
      assert d[i] in es[..n];
    }
  }

  lemma {:induction false} RisingStep(s: State, es: seq<Entry>, policy: Policy)
    requires es != [] && KeysNameIDs(es) && Rising(s.end, es)
    requires Written(Run(s, es[..|es| - 1], false, policy)) == Written(s) + Distinct(s.end, es[..|es| - 1])
    requires Tracks(Run(s, es[..|es| - 1], false, policy), s.end, Distinct(s.end, es[..|es| - 1]))
    ensures Written(Run(s, es, false, policy)) == Written(s) + Distinct(s.end, es)
    ensures Tracks(Run(s, es, false, policy), s.end, Distinct(s.end, es))
  {
    hide Written, Tracks, HasKey, Step, Rising, KeysNameIDs, Eligible;
    var n := |es| - 1;
    var r, d, e := Run(s, es[..n], false, policy), Distinct(s.end, es[..n]), es[n];
    NewIsAbove(s.end, es);
    KnownNamesID(s.end, es);
    if !Eligible(e, s.end) {
      SkipsIneligible(r, s.end, d, e, policy);
    } else if HasKey(d, e.key) {
      SkipsKnown(r, s.end, d, e, policy);
    } else {
      TakesNew(r, s.end, d, e, policy);
    }
  }

  /** The entries above every id before them. */
  ghost function Records(end: int, es: seq<Entry>): seq<Entry> {
    if es == [] then []
    else
      var d := Records(end, es[..|es| - 1]);
      var e := es[|es| - 1];
      if Usable(e) && e.id > Top(end, d) then d + [e] else d
  }

  ghost function Top(end: int, d: seq<Entry>): int {
    if d == [] then end else d[|d| - 1].id
  }

  ghost predicate Packed(es: seq<Entry>) { forall i :: 0 <= i < |es| && Usable(es[i]) ==> es[i].packed >= 1 }

  /** The smallest target finalizes after every copied entry, so only records are copied. */
  lemma {:induction false} SmallestTarget(s: State, es: seq<Entry>)
    requires Ready(s) && s.left <= 1 && Packed(es)
    ensures var r := Run(s, es, false, BySize(1));
            && Ready(r) && r.left <= 1 && r.end == Top(s.end, Records(s.end, es))
            && Written(r) == Written(s) + Records(s.end, es)
  {
    if es != [] {
      var n := |es| - 1;
      SmallestTarget(s, es[..n]);
      var r := Run(s, es[..n], false, BySize(1));
      WrittenStep(r, es[n], false, BySize(1));
    }
  }

  /** Records are first occurrences; where the two agree, first occurrences rise. */
  lemma {:induction false} RecordsAreDistinct(end: int, es: seq<Entry>)
    requires KeysNameIDs(es)
    ensures |Records(end, es)| <= |Distinct(end, es)|
    ensures forall i :: 0 <= i < |es| && Eligible(es[i], end) ==> es[i].id <= Top(end, Records(end, es))
    ensures end <= Top(end, Records(end, es))
    ensures |Records(end, es)| == |Distinct(end, es)| ==> Rising(end, es)
  {
    if es != [] {
      var n := |es| - 1;
      var p, e := es[..n], es[n];
      RecordsAreDistinct(end, p);
      DistinctIsExact(end, p);
      forall i | 0 <= i < n && Eligible(es[i], end) ensures es[i].id <= Top(end, Records(end, p)) {
        assert p[i] == es[i];
      }
      KeyWasSeen(end, es, Top(end, Records(end, p)));
      if |Records(end, es)| == |Distinct(end, es)| {
        RisingSnoc(end, es);
      }
    }
  }

  lemma {:induction false} KeyWasSeen(end: int, es: seq<Entry>, bound: int)
    requires es != [] && KeysNameIDs(es)
    requires forall i :: 0 <= i < |es| - 1 && Eligible(es[i], end) ==> es[i].id <= bound
    ensures EligibleKey(es[..|es| - 1], end, es[|es| - 1].key) ==> es[|es| - 1].id <= bound
  {
    var p, e := es[..|es| - 1], es[|es| - 1];
    if EligibleKey(p, end, e.key) {
      var i :| 0 <= i < |p| && Eligible(p[i], end) && p[i].key == e.key;
      assert es[i].id == e.id;
    }
  }

  lemma {:induction false} RisingSnoc(end: int, es: seq<Entry>)
    requires es != [] && Rising(end, es[..|es| - 1])
    requires FirstOfKey(end, es, |es| - 1) ==> AboveAll(end, es[..|es| - 1], es[|es| - 1].id)
    ensures Rising(end, es)
  {
    var p := es[..|es| - 1];
    forall n | 0 <= n < |es| && FirstOfKey(end, es, n) ensures AboveAll(end, es[..n], es[n].id) {
      if n < |p| {
        assert p[..n] == es[..n] && p[n] == es[n];
        assert FirstOfKey(end, p, n);
      }
    }
  }

  /** `stored` is the size of the merge archive the pass continues. */
  ghost predicate Conserves(s: State, stored: nat, es: seq<Entry>, target: int) {
    Written(Run(s.(left := target - stored), es, false, BySize(target))) == Written(s) + Distinct(s.end, es)
  }

  /** The size policy conserves every eligible key for all target sizes exactly when first
      occurrences rise. */
  lemma {:induction false} SizeConservesIff(s: State, es: seq<Entry>, stored: nat)
    requires Ready(s) && KeysNameIDs(es) && Packed(es)
    ensures Rising(s.end, es) <==> forall target: nat | target > 0 :: Conserves(s, stored, es, target)
  {
    if Rising(s.end, es) {
      forall target: nat | target > 0 ensures Conserves(s, stored, es, target) {
        RisingConserves(s.(left := target - stored), es, BySize(target));
      }
    } else {
      var t := s.(left := 1 - stored);
      SmallestTarget(t, es);
      RecordsAreDistinct(s.end, es);
      assert |Written(s) + Records(s.end, es)| < |Written(s) + Distinct(s.end, es)|;
      assert !Conserves(s, stored, es, 1);
    }
  }

  /** The usable entries come with ascending ids. */
  ghost predicate UsableAscend(es: seq<Entry>) {
    forall i, j :: 0 <= i < j < |es| && Usable(es[i]) && Usable(es[j]) ==> es[i].id <= es[j].id
  }

  ghost predicate IDNamesKey(es: seq<Entry>) {
    forall i, j :: 0 <= i < |es| && 0 <= j < |es| && es[i].id == es[j].id ==> es[i].key == es[j].key
  }

  /** An fb2 book's id is its key. */
  lemma {:induction false} FB2IDsNameKeys(es: seq<Entry>)
    requires forall i :: 0 <= i < |es| ==> Made(es[i], FB2)
    ensures IDNamesKey(es)
  {
  }

  /** Ascending ids meet the condition where an id has one key. */
  lemma {:induction false} AscendingRises(end: int, es: seq<Entry>)
    requires UsableAscend(es) && IDNamesKey(es)
    ensures Rising(end, es)
  {
    forall n | 0 <= n < |es| && FirstOfKey(end, es, n) ensures AboveAll(end, es[..n], es[n].id) {
      forall i | 0 <= i < n && Eligible(es[..n][i], end) ensures es[..n][i].id < es[n].id {
        assert es[i] == es[..n][i];
        assert es[..n][i].key != es[n].key;
      }
    }
  }

  /** No usable entry of an update has a lower id than one of an update before it. */
  ghost predicate InIDOrder(updates: seq<seq<Entry>>) {
    forall i, j, e, f ::
      0 <= i < j < |updates| && e in updates[i] && f in updates[j] && Usable(e) && Usable(f) ==> e.id <= f.id
  }

  lemma {:induction false} InOrderFrom(updates: seq<seq<Entry>>, e: Entry)
    ensures e in InOrder(updates) <==> exists i :: 0 <= i < |updates| && e in updates[i]
  {
    if updates != [] {
      var n := |updates| - 1;
      InOrderFrom(updates[..n], e);
      OrderedIsSorted(updates[n]);
      if i :| 0 <= i < n && e in updates[i] { assert e in updates[..n][i]; }
      if i :| 0 <= i < n && e in updates[..n][i] { assert e in updates[i]; }
    }
  }

  lemma {:induction false} AscendAppend(a: seq<Entry>, b: seq<Entry>)
    requires UsableAscend(a) && Ascending(b)
    requires forall e, f :: e in a && f in b && Usable(e) && Usable(f) ==> e.id <= f.id
    ensures UsableAscend(a + b)
  {
    var all := a + b;
    forall i, j | 0 <= i < j < |all| && Usable(all[i]) && Usable(all[j]) ensures all[i].id <= all[j].id {
      if i < |a| && |a| <= j { assert all[i] in a && all[j] in b; }
      if |a| <= i { assert all[i] == b[i - |a|] && all[j] == b[j - |a|]; }
    }
  }

  /** Updates that follow one another in id order are read with ids ascending. */
  lemma {:induction false} OrderAscends(updates: seq<seq<Entry>>)
    requires InIDOrder(updates)
    ensures UsableAscend(InOrder(updates))
  {
    if updates != [] {
      var n := |updates| - 1;
      OrderAscends(updates[..n]);
      OrderedIsSorted(updates[n]);
      var a, b := InOrder(updates[..n]), Ordered(updates[n]);
      forall e, f | e in a && f in b && Usable(e) && Usable(f) ensures e.id <= f.id {
        InOrderFrom(updates[..n], e);
        var i :| 0 <= i < n && e in updates[..n][i];
        assert e in updates[i] && f in updates[n];
      }
      AscendAppend(a, b);
    }
  }

  // ---------------------------------------------------------------- what the size policy can lose

  /** The start of a pass over an empty archive directory. */
  function Empty(target: int): State { State(target, 0, 0, 0, false, {}, [], None, [], []) }

  /** Target 1: the book with the lower id, arriving later, is dropped. */
  lemma {:induction false} LateLowerIDIsLost(late: Entry, early: Entry)
    requires Usable(late) && Usable(early) && late.id < early.id && early.packed >= 1
    ensures var r := Run(Empty(1), [early, late], false, BySize(1));
            Written(r) == [early]
  {
    var s := Empty(1);
    assert [early, late][..1] == [early] && [early][..0] == [];
    assert Run(s, [early], false, BySize(1)) == Step(s, early, false, BySize(1));
    WrittenStep(s, early, false, BySize(1));
  }

  /** Target 1: of two usr books that share an id the second is dropped. */
  lemma {:induction false} SharedIDIsLost(first: Entry, second: Entry)
    requires Usable(first) && Usable(second) && first.id == second.id && first.key != second.key && first.packed >= 1
    ensures var r := Run(Empty(1), [first, second], false, BySize(1));
            Written(r) == [first]
  {
    var s := Empty(1);
    assert [first, second][..1] == [first] && [first][..0] == [];
    assert Run(s, [first], false, BySize(1)) == Step(s, first, false, BySize(1));
    WrittenStep(s, first, false, BySize(1));
  }
}
