/** The ranges in archive names: exact, disjoint and rising, and what that says about keys. */
module RollupRanges {
  import opened RollupEntries
  import opened RollupPass
  import opened RollupConservation

  ghost predicate Within(es: seq<Entry>, first: int, last: int) {
    forall i :: 0 <= i < |es| && Usable(es[i]) ==> first <= es[i].id <= last
  }

  ghost predicate Reaches(es: seq<Entry>, id: int) { exists i :: 0 <= i < |es| && es[i].id == id }

  /** The range is the span of the entries; `base` is the start of the range of an archive that
      was continued, or 0. */
  ghost predicate Exact(first: int, last: int, es: seq<Entry>, base: int) {
    && 0 < first <= last
    && Within(es, first, last)
    && Reaches(es, last)
    && (first == base || Reaches(es, first))
  }

  /** What a pass starts from: no new entry yet, and either nothing or the archive it continues. */
  ghost predicate Start(s: State) {
    && s.done == [] && !s.copied && s.keys == {} && s.end >= 0
    && (s.first == 0 ==> s.last == 0 && s.entries == [])
    && (s.first != 0 ==> 0 < s.first <= s.last == s.end && Within(s.entries, s.first, s.last))
  }

  function BaseOf(start: State, n: nat): int { if n == 0 then start.first else 0 }

  function EndOf(start: State, done: seq<Archive>): int {
    if done == [] then start.end else done[|done| - 1].last
  }

  /** The archive finalized as number n lies above the one before it and is exactly named. */
  ghost predicate Placed(start: State, done: seq<Archive>, n: nat)
    requires n < |done|
  {
    var a := done[n];
    && Exact(a.first, a.last, a.entries, BaseOf(start, n))
    && EndOf(start, done[..n]) < a.last
    && (if BaseOf(start, n) != 0 then a.first == start.first else EndOf(start, done[..n]) < a.first)
  }

  ghost predicate WorkPlaced(start: State, s: State) {
    var base := BaseOf(start, |s.done|);
    if s.copied then
      && Exact(s.first, s.last, s.entries, base)
      && s.end < s.last
      && (if base != 0 then s.first == base else s.end < s.first)
    else if s.done == [] then s.first == start.first && s.last == start.last && s.entries == start.entries
    else s.first == 0 && s.last == 0 && s.entries == []
  }

  ghost predicate Ranges(start: State, s: State) {
    && s.end == EndOf(start, s.done)
    && (forall n :: 0 <= n < |s.done| ==> Placed(start, s.done, n))
    && WorkPlaced(start, s)
  }

  lemma {:induction false} ExactAppend(first: int, last: int, es: seq<Entry>, base: int, e: Entry)
    requires Usable(e) && Within(es, first, last)
    requires last < e.id
    requires 0 < first <= last && (first == base || Reaches(es, first))
    ensures Exact(first, e.id, es + [e], base)
  {
    var all := es + [e];
    assert all[|es|] == e;
    if Reaches(es, first) {
      var i :| 0 <= i < |es| && es[i].id == first;
      assert all[i] == es[i];
    }
    assert Reaches(all, e.id);
  }

  /** One more entry, anywhere above the end: its range grows to it on either side. */
  lemma {:induction false} ExactExtends(first: int, last: int, es: seq<Entry>, base: int, e: Entry)
    requires Usable(e) && Exact(first, last, es, base) && (base != 0 ==> first == base && base <= e.id)
    ensures Exact(if e.id < first then e.id else first, if e.id > last then e.id else last, es + [e], base)
  {
    var all := es + [e];
    assert all[|es|] == e;
    var i :| 0 <= i < |es| && es[i].id == last;
    assert all[i] == es[i];
    if Reaches(es, first) {
      var j :| 0 <= j < |es| && es[j].id == first;
      assert all[j] == es[j];
    }
    assert Reaches(all, e.id) && Reaches(all, last);
    assert Reaches(es, first) ==> Reaches(all, first);
  }

  /** The work archive after one more new entry, before it may be finalized. */
  lemma {:induction false} CopyIsExact(start: State, s: State, e: Entry)
    requires Start(start) && Ranges(start, s) && Usable(e) && e.id > s.end
    ensures var base := BaseOf(start, |s.done|);
            var first := if s.first == 0 || e.id < s.first then e.id else s.first;
            var last := if e.id > s.last then e.id else s.last;
            && Exact(first, last, s.entries + [e], base)
            && s.end < last
            && (if base != 0 then first == base else s.end < first)
  {
    var base := BaseOf(start, |s.done|);
    if s.copied {
      ExactExtends(s.first, s.last, s.entries, base, e);
    } else if s.first == 0 {
      assert s.entries + [e] == [e];
      assert [e][0] == e && Reaches([e], e.id);
    } else {
      ExactAppend(s.first, s.last, s.entries, base, e);
    }
  }

  lemma {:induction false} FinalizePlaced(start: State, s: State, target: int)
    requires Start(start) && s.copied && Ranges(start, s)
    ensures Ranges(start, Finalize(s, target))
  {
    var t := Finalize(s, target);
    forall n | 0 <= n < |t.done| ensures Placed(start, t.done, n) {
      assert t.done[..n] == s.done[..n];
      if n < |s.done| { assert Placed(start, s.done, n); }
      else { assert s.done[..n] == s.done; }
    }
  }

  lemma {:induction false} StepPlaced(start: State, s: State, e: Entry, policy: Policy)
    requires Start(start) && Ranges(start, s)
    ensures Ranges(start, Step(s, e, false, policy))
  {
    if Usable(e) && e.id > s.end && e.key !in s.keys {
      CopyIsExact(start, s, e);
      var t := Copy(s, e, false, ByPeriod);
      var left := if policy.BySize? then s.left - e.packed else s.left;
      assert Ranges(start, t.(left := left));
      if policy.BySize? && left <= 0 {
        FinalizePlaced(start, t.(left := left), policy.target);
      }
    }
  }

  /** Every archive a pass finalizes is named after exactly what it holds, extended only by the
      range of the archive it continues, and lies above everything finalized before it. */
  lemma {:induction false} RunPlaced(start: State, es: seq<Entry>, policy: Policy)
    requires Start(start)
    ensures Ranges(start, Run(start, es, false, policy))
  {
    if es != [] {
      RunPlaced(start, es[..|es| - 1], policy);
      StepPlaced(start, Run(start, es[..|es| - 1], false, policy), es[|es| - 1], policy);
    }
  }

  lemma {:induction false} FinalizedRise(start: State, done: seq<Archive>, i: nat, j: nat)
    requires i < j < |done| && Start(start)
    requires forall n :: 0 <= n < |done| ==> Placed(start, done, n)
    ensures done[i].last < done[j].first
    decreases j
  {
    assert Placed(start, done, j);
    assert EndOf(start, done[..j]) == done[j - 1].last;
    if i < j - 1 {
      FinalizedRise(start, done, i, j - 1);
      assert Placed(start, done, j - 1);
    }
  }

  // ---------------------------------------------------------------- reopening the last archive

  function UsableOf(es: seq<Entry>): seq<Entry> {
    if es == [] then []
    else UsableOf(es[..|es| - 1]) + if Usable(es[|es| - 1]) then [es[|es| - 1]] else []
  }

  /** Reopening copies the usable entries of the last archive, and keeps its range if the name
      covers them; it does not count against the target. */
  lemma {:induction false} ReopenKeeps(s: State, es: seq<Entry>, policy: Policy)
    requires policy.BySize? ==> s.left > 0
    requires s.first != 0 && Within(es, s.first, s.last)
    ensures Run(s, es, true, policy) == s.(entries := s.entries + UsableOf(es))
  {
    if es != [] {
      var p := es[..|es| - 1];
      assert forall i :: 0 <= i < |p| ==> p[i] == es[i];
      ReopenKeeps(s, p, policy);
      assert Run(s, es, true, policy).entries == s.entries + UsableOf(es);
    }
  }

  /** Nothing of the reopened archive is dropped exactly when all its entries are usable. */
  lemma {:induction false} UsableOfHolds(es: seq<Entry>, e: Entry)
    ensures e in UsableOf(es) <==> e in es && Usable(e)
  {
    if es != [] {
      UsableOfHolds(es[..|es| - 1], e);
      assert es == es[..|es| - 1] + [es[|es| - 1]];
    }
  }

  lemma {:induction false} SameBefore<T>(a: seq<T>, b: seq<T>, x: T)
    ensures a + [x] == b + [x] <==> a == b
  {
    if a + [x] == b + [x] {
      assert (a + [x])[..|a|] == a && (b + [x])[..|b|] == b;
    }
  }

  lemma {:induction false} LastIsUsable(es: seq<Entry>)
    requires es != []
    ensures es == es[..|es| - 1] + [es[|es| - 1]]
    ensures var p := es[..|es| - 1];
            (forall i :: 0 <= i < |es| ==> Usable(es[i]))
            <==> (forall i :: 0 <= i < |p| ==> Usable(p[i])) && Usable(es[|p|])
  {
    hide Usable;
    var p := es[..|es| - 1];
    if (forall i :: 0 <= i < |p| ==> Usable(p[i])) && Usable(es[|p|]) {
      forall i | 0 <= i < |es| ensures Usable(es[i]) {
        if i < |p| { assert es[i] == p[i]; }
      }
    }
  }

  lemma {:induction false} ReopenDropsUnusable(es: seq<Entry>)
    ensures |UsableOf(es)| <= |es|
    ensures UsableOf(es) == es <==> forall i :: 0 <= i < |es| ==> Usable(es[i])
  {
    hide Usable;
    if es != [] {
      var p, e := es[..|es| - 1], es[|es| - 1];
      ReopenDropsUnusable(p);
      LastIsUsable(es);
      if Usable(e) { SameBefore(UsableOf(p), p, e); }
    }
  }

  // ---------------------------------------------------------------- sizes

  function PackedSize(es: seq<Entry>): nat {
    if es == [] then 0 else PackedSize(es[..|es| - 1]) + es[|es| - 1].packed
  }

  /** An archive was closed by the entry that used up the budget, not before. */
  ghost predicate ClosedAt(added: seq<Entry>, budget: int) {
    && added != []
    && PackedSize(added) >= budget
    && (|added| > 1 ==> PackedSize(added[..|added| - 1]) < budget)
  }

  /** What was appended to archive n: all of it, or what follows the continued content. */
  function Added(start: State, n: nat, es: seq<Entry>): seq<Entry>
    requires n == 0 ==> |start.entries| <= |es|
  {
    if n == 0 then es[|start.entries|..] else es
  }

  function Budget(start: State, n: nat, target: int): int { if n == 0 then start.left else target }

  ghost predicate ArchiveSized(start: State, n: nat, es: seq<Entry>, target: int) {
    && (n == 0 ==> |start.entries| <= |es|)
    && ClosedAt(Added(start, n, es), Budget(start, n, target))
  }

  ghost predicate WorkSized(start: State, n: nat, es: seq<Entry>, left: int, target: int) {
    && (n == 0 ==> start.entries <= es)
    && left == Budget(start, n, target) - PackedSize(Added(start, n, es))
    && (Added(start, n, es) != [] ==> left > 0)
  }

  ghost predicate Sized(start: State, s: State, target: int) {
    && (forall i :: 0 <= i < |s.done| ==> ArchiveSized(start, i, s.done[i].entries, target))
    && WorkSized(start, |s.done|, s.entries, s.left, target)
  }

  /** Each archive is finalized by the first new entry with which the appended compressed sizes
      reach its budget: the target, or for a continued merge archive what was left of it. */
  lemma {:induction false} RunSized(start: State, es: seq<Entry>, target: int)
    requires start.done == []
    ensures Sized(start, Run(start, es, false, BySize(target)), target)
  {
    if es != [] {
      RunSized(start, es[..|es| - 1], target);
      var s, e := Run(start, es[..|es| - 1], false, BySize(target)), es[|es| - 1];
      SizedStep(start, s, e, target);
    } else {
      assert start.entries[|start.entries|..] == [];
    }
  }

  lemma {:induction false} PackedAppend(es: seq<Entry>, e: Entry)
    ensures PackedSize(es + [e]) == PackedSize(es) + e.packed
  {
    assert (es + [e])[..|es|] == es;
  }

  lemma {:induction false} AddedAppend(start: State, n: nat, es: seq<Entry>, e: Entry)
    requires n == 0 ==> start.entries <= es
    ensures n == 0 ==> start.entries <= es + [e]
    ensures Added(start, n, es + [e]) == Added(start, n, es) + [e]
  {
  }

  lemma {:induction false} SizedCopy(start: State, n: nat, es: seq<Entry>, left: int, e: Entry, target: int)
    requires WorkSized(start, n, es, left, target)
    ensures left - e.packed > 0 ==> WorkSized(start, n, es + [e], left - e.packed, target)
    ensures left - e.packed <= 0 ==> ArchiveSized(start, n, es + [e], target)
  {
    var was := Added(start, n, es);
    AddedAppend(start, n, es, e);
    PackedAppend(was, e);
    assert (was + [e])[..|was + [e]| - 1] == was;
  }

  lemma {:induction false} SizedStep(start: State, s: State, e: Entry, target: int)
    requires Sized(start, s, target)
    ensures Sized(start, Step(s, e, false, BySize(target)), target)
  {
    SizedCopy(start, |s.done|, s.entries, s.left, e, target);
    FreshIsSized(start, |s.done| + 1, target);
  }

  lemma {:induction false} FreshIsSized(start: State, n: nat, target: int)
    requires n > 0
    ensures WorkSized(start, n, [], target, target)
  {
  }
}
