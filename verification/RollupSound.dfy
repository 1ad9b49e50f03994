/** The directory invariant and the main theorems about one run. */
module RollupSound {
  import opened Wrappers
  import opened RollupEntries
  import opened RollupPass
  import opened RollupConservation
  import opened RollupRanges
  import opened RollupDisk
  import opened RollupKeys

  ghost predicate Below(n: Name, m: Name) { n.Final? && n.last < m.first }

  /** Ranges do not meet, and a merge archive lies above all final ones. */
  ghost predicate Apart(n: Name, m: Name) { Below(n, m) || Below(m, n) }

  ghost predicate SoundArchive(n: Name, es: seq<Entry>, family: Family) {
    && 0 < n.first <= n.last
    && Within(es, n.first, n.last)
    && OwnKeys(es) && AllMade(es, family)
  }

  /** Names cover contents, no archive repeats a key, and ranges are pairwise disjoint. */
  ghost predicate Sound(d: Disk, family: Family) {
    && (forall n :: n in d ==> SoundArchive(n, d[n], family))
    && (forall n, m :: n in d && m in d && n != m ==> Apart(n, m))
  }

  /** In a sound directory a key is stored in one archive only, and there once. */
  lemma {:induction false} KeysAreUnique(d: Disk, family: Family, key: string, n: Name, m: Name)
    requires Sound(d, family) && n in d && m in d
    requires KeyCount(key, d[n]) > 0 && KeyCount(key, d[m]) > 0
    ensures n == m && KeyCount(key, d[n]) == 1
  {
    hide KeyCount, Made;
    CountHolds(key, d[n]);
    CountHolds(key, d[m]);
    var e :| e in d[n] && Usable(e) && e.key == key;
    var f :| f in d[m] && Usable(f) && f.key == key;
    KeyNamesID(e, f, family);
    assert OwnKeys(d[n]);
    assert n != m ==> Apart(n, m);
  }

  // ---------------------------------------------------------------- how a run starts

  /** The archive found on disk with the highest end, and the merge archive. */
  datatype Setup = Setup(last: Option<Name>, merge: Option<Name>)

  datatype Error = TwoMerges | MergeDoesNotMatch

  function EndOfName(n: Option<Name>): int { if n.Some? then n.value.last else 0 }

  /** `getLastArchive`. */
  function LastOf(files: seq<Name>): (r: Option<Name>)
    ensures r.Some? ==> r.value in files && r.value.Final? && r.value.last > 0
    ensures forall f :: f in files && f.Final? ==> f.last <= EndOfName(r)
  {
    if files == [] then None
    else
      var r, f := LastOf(files[..|files| - 1]), files[|files| - 1];
      assert files == files[..|files| - 1] + [f];
      if f.Final? && EndOfName(r) < f.last then Some(f) else r
  }

  /** `getMergeArchive`. */
  function Merges(files: seq<Name>): seq<Name> {
    if files == [] then []
    else Merges(files[..|files| - 1]) + if files[|files| - 1].Merging? then [files[|files| - 1]] else []
  }

  /** The checks at the start of `runFamily`. */
  function Inspect(files: seq<Name>): Result<Setup, Error> {
    var last := LastOf(files);
    var merges := Merges(files);
    if |merges| > 1 then Err(TwoMerges)
    else if merges == [] then Ok(Setup(last, None))
    else
      var m := merges[0];
      var begin := if last.Some? then last.value.first else 0;
      if m.first < begin || (m.first > begin && m.first <= EndOfName(last)) || m.last < EndOfName(last)
      then Err(MergeDoesNotMatch)
      else Ok(Setup(last, Some(m)))
  }

  ghost predicate Lists(files: seq<Name>, d: Disk) {
    && (forall n :: n in files <==> n in d)
    && (forall i, j :: 0 <= i < j < |files| ==> files[i] != files[j])
  }

  lemma {:induction false} MergesHolds(files: seq<Name>, n: Name)
    ensures n in Merges(files) <==> n in files && n.Merging?
  {
    if files != [] {
      MergesHolds(files[..|files| - 1], n);
      assert files == files[..|files| - 1] + [files[|files| - 1]];
    }
  }

  lemma {:induction false} MergesAreListed(files: seq<Name>)
    ensures Merges(files) != [] ==> Merges(files)[0] in files && Merges(files)[0].Merging?
  {
    if Merges(files) != [] {
      MergesHolds(files, Merges(files)[0]);
    }
  }

  lemma {:induction false} MergesDiffer(files: seq<Name>)
    requires forall i, j :: 0 <= i < j < |files| ==> files[i] != files[j]
    ensures forall i, j :: 0 <= i < j < |Merges(files)| ==> Merges(files)[i] != Merges(files)[j]
  {
    if files != [] {
      var p, f := files[..|files| - 1], files[|files| - 1];
      MergesDiffer(p);
      assert forall i :: 0 <= i < |p| ==> p[i] == files[i] != f;
      MergesHolds(p, f);
    }
  }

  /** What a run sees of a directory. */
  ghost predicate Sees(d: Disk, setup: Setup) {
    && (setup.last.Some? ==> setup.last.value in d && setup.last.value.Final?)
    && (setup.merge.Some? ==> setup.merge.value in d && setup.merge.value.Merging?)
    && (forall n :: n in d && n.Final? ==> setup.last.Some? && n.last <= setup.last.value.last)
    && (forall n :: n in d && n.Merging? ==> setup.merge == Some(n))
  }

  lemma {:induction false} PickTwo(files: seq<Name>) returns (n: Name, m: Name)
    requires |files| > 1 && forall i, j :: 0 <= i < j < |files| ==> files[i] != files[j]
    ensures n in files && m in files && n != m
  {
    n, m := files[0], files[1];
  }

  lemma {:induction false} OneName(files: seq<Name>)
    requires forall i, j :: 0 <= i < j < |files| ==> files[i] != files[j]
    requires forall n, m :: n in files && m in files ==> n == m
    ensures |files| <= 1
    ensures forall n :: n in files <==> files == [n]
  {
    if |files| > 1 {
      var n, m := PickTwo(files);
      assert false;
    }
  }

  lemma {:induction false} OneMerge(d: Disk, files: seq<Name>, family: Family)
    requires Sound(d, family) && Lists(files, d)
    ensures |Merges(files)| <= 1
    ensures forall n :: n in d && n.Merging? <==> Merges(files) == [n]
    ensures forall n :: n in Merges(files) <==> n in d && n.Merging?
  {
    MergesDiffer(files);
    forall n ensures n in Merges(files) <==> n in d && n.Merging? { MergesHolds(files, n); }
    forall n, m | n in Merges(files) && m in Merges(files) ensures n == m {
      assert n != m ==> Apart(n, m);
    }
    OneName(Merges(files));
  }

  lemma {:induction false} MergeAboveLast(d: Disk, last: Option<Name>, m: Name, family: Family)
    requires Sound(d, family) && m in d && m.Merging? && (last.Some? ==> last.value in d && last.value.Final?)
    ensures EndOfName(last) < m.first <= m.last
    ensures last.Some? ==> last.value.first <= last.value.last
  {
    assert SoundArchive(m, d[m], family);
    if last.Some? {
      assert Apart(last.value, m);
      assert SoundArchive(last.value, d[last.value], family);
    }
  }

  /** On a sound directory the checks succeed. */
  lemma {:induction false} InspectSound(d: Disk, files: seq<Name>, family: Family)
    requires Sound(d, family) && Lists(files, d)
    ensures Inspect(files).Ok? && Sees(d, Inspect(files).value)
  {
    var last, merges := LastOf(files), Merges(files);
    OneMerge(d, files, family);
    if merges != [] { MergeAboveLast(d, last, merges[0], family); }
    assert forall n :: n in d ==> SoundArchive(n, d[n], family);
  }

  lemma {:induction false} MergesCount(files: seq<Name>, n: Name, m: Name)
    requires n in files && m in files && n.Merging? && m.Merging? && n != m
    ensures |Merges(files)| > 1
  {
    MergesHolds(files, n);
    MergesHolds(files, m);
    var i :| 0 <= i < |Merges(files)| && Merges(files)[i] == n;
    var j :| 0 <= j < |Merges(files)| && Merges(files)[j] == m;
  }

  /** A crash between publishing a grown merge archive and removing the old one leaves both: the
      next run then stops before it touches anything. */
  lemma {:induction false} TwoMergesStopTheRun(d: Disk, files: seq<Name>, n: Name, m: Name)
    requires Lists(files, d) && n in d && m in d && n.Merging? && m.Merging? && n != m
    ensures Inspect(files) == Err(TwoMerges)
  {
    MergesCount(files, n, m);
  }

  predicate FitsBehind(m: Name, last: Option<Name>) {
    match last
    case None => m.first >= 0 && m.last >= 0
    case Some(l) => (m.first == l.first || (m.first > l.first && m.first > l.last)) && m.last >= l.last
  }

  /** Which directories pass the start checks: there is at most one merge archive, and it begins where the last final
      one begins or beyond its end, and does not end before it. */
  lemma {:induction false} PassesIff(files: seq<Name>)
    ensures Inspect(files).Ok?
       <==> |Merges(files)| <= 1 && forall m :: m in files && m.Merging? ==> FitsBehind(m, LastOf(files))
  {
    MergesAreListed(files);
    if |Merges(files)| == 1 {
      forall m | m in files && m.Merging? ensures m == Merges(files)[0] { MergesHolds(files, m); }
    } else if Merges(files) == [] {
      forall m | m in files && m.Merging? ensures false { MergesHolds(files, m); }
    }
  }

  /** `runFamily` without a merge archive takes the end of the last one. */
  function End(setup: Setup): int {
    if setup.merge.Some? then setup.merge.value.last else EndOfName(setup.last)
  }

  predicate SetupIn(d: Disk, setup: Setup) {
    && (setup.merge.Some? ==> setup.merge.value in d)
    && (setup.last.Some? ==> setup.last.value in d)
  }

  predicate Reopens(setup: Setup, policy: Policy, lastSize: nat) {
    policy.BySize? && setup.merge.None? && setup.last.Some? && policy.target - lastSize > 0
  }

  /** `openWorkArchive` and the initial variables of `processUpdates`. */
  function Open(d: Disk, setup: Setup, policy: Policy, mergeSize: nat, lastSize: nat): State
    requires setup.merge.Some? ==> setup.merge.value in d
  {
    var target := if policy.BySize? then policy.target else 0;
    if setup.merge.Some? then
      var m := setup.merge.value;
      State(target - mergeSize, m.first, m.last, m.last, false, {}, d[m], setup.merge, [], [])
    else if Reopens(setup, policy, lastSize) then
      var l := setup.last.value;
      State(target, l.first, l.last, l.last, false, {}, [], setup.last, [], [])
    else
      State(target, 0, 0, EndOfName(setup.last), false, {}, [], None, [], [])
  }

  /** What a run by size starts from: it continues the merge archive, whose size counts, or the last archive if that
      is smaller than the target, without counting it, or else nothing. */
  lemma {:induction false} BudgetIs(d: Disk, setup: Setup, target: int, mergeSize: nat, lastSize: nat)
    requires SetupIn(d, setup)
    ensures var s := Open(d, setup, BySize(target), mergeSize, lastSize);
            && s.left == (if setup.merge.Some? then target - mergeSize else target)
            && s.prior == (if setup.merge.Some? then setup.merge
                           else if setup.last.Some? && lastSize < target then setup.last else None)
            && (s.prior.Some? ==> s.first == s.prior.value.first && s.last == s.end == s.prior.value.last)
            && (s.prior.None? ==> s.first == s.last == 0 && s.end == EndOfName(setup.last))
            && s.entries == (if setup.merge.Some? then d[setup.merge.value] else [])
  {
  }

  /** The state after the reopened archive, if any, has been copied. */
  function Reopened(d: Disk, setup: Setup, policy: Policy, mergeSize: nat, lastSize: nat): State
    requires SetupIn(d, setup)
  {
    var s := Open(d, setup, policy, mergeSize, lastSize);
    if Reopens(setup, policy, lastSize) then Run(s, Ordered(d[setup.last.value]), true, policy) else s
  }

  /** How a state relates to the directory it came from. */
  ghost predicate Continues(d: Disk, s: State, family: Family) {
    && Start(s) && Single(s, family) && s.ops == []
    && (forall n :: n in d ==> n.last <= s.end)
    && (s.prior.Some? ==>
          && s.prior.value in d && s.first == s.prior.value.first
          && (forall n :: n in d && n != s.prior.value ==> Below(n, s.prior.value))
          && (forall e :: e in d[s.prior.value] && Usable(e) ==> e in s.entries))
    && (s.prior.None? ==> s.first == 0 && forall n :: n in d ==> n.Final?)
  }

  lemma {:induction false} OrderedWithin(es: seq<Entry>, first: int, last: int)
    requires Within(es, first, last)
    ensures Within(Ordered(es), first, last)
  {
    OrderedIsSorted(es);
    forall i | 0 <= i < |Ordered(es)| && Usable(Ordered(es)[i]) ensures first <= Ordered(es)[i].id <= last {
      assert Ordered(es)[i] in es;
    }
  }

  lemma {:induction false} ReopenedContent(es: seq<Entry>, first: int, last: int, family: Family)
    requires Within(es, first, last) && OwnKeys(es) && AllMade(es, family)
    ensures var u := UsableOf(Ordered(es));
            && Within(u, first, last) && OwnKeys(u) && AllMade(u, family)
            && forall e :: e in es && Usable(e) ==> e in u
  {
    var u := UsableOf(Ordered(es));
    OrderedIsSorted(es);
    forall e ensures e in u <==> e in es && Usable(e) { UsableOfHolds(Ordered(es), e); }
    forall key ensures KeyCount(key, u) <= 1 {
      CountUsable(key, Ordered(es));
      CountOrdered(key, es);
      assert KeyCount(key, es) <= 1;
    }
    assert forall i :: 0 <= i < |u| ==> u[i] in u;
  }

  lemma {:induction false} OpenMergeContinues(d: Disk, setup: Setup, policy: Policy, mergeSize: nat, lastSize: nat,
      family: Family)
    requires Sound(d, family) && Sees(d, setup) && setup.merge.Some?
    ensures Continues(d, Open(d, setup, policy, mergeSize, lastSize), family)
  {
    var m := setup.merge.value;
    assert SoundArchive(m, d[m], family);
    forall n | n in d && n != m ensures Below(n, m) { assert Apart(n, m); }
    EntriesWithin(d[m], m.first, m.last);
  }

  lemma {:induction false} OpenLastContinues(d: Disk, setup: Setup, policy: Policy, mergeSize: nat, lastSize: nat,
      family: Family)
    requires Sound(d, family) && Sees(d, setup) && Reopens(setup, policy, lastSize)
    ensures Continues(d, Reopened(d, setup, policy, mergeSize, lastSize), family)
  {
    var s := Open(d, setup, policy, mergeSize, lastSize);
    var l := setup.last.value;
    assert SoundArchive(l, d[l], family);
    forall n | n in d && n != l ensures Below(n, l) { assert Apart(n, l); assert SoundArchive(n, d[n], family); }
    OrderedWithin(d[l], l.first, l.last);
    ReopenKeeps(s, Ordered(d[l]), policy);
    ReopenedContent(d[l], l.first, l.last, family);
    var u := UsableOf(Ordered(d[l]));
    assert [] + u == u;
    EntriesWithin(u, l.first, l.last);
  }

  /** A run continues what it finds: everything stored lies at or below its end, and the archive
      it replaces is copied. */
  lemma {:induction false} OpenContinues(d: Disk, setup: Setup, policy: Policy, mergeSize: nat, lastSize: nat,
      family: Family)
    requires Sound(d, family) && Sees(d, setup)
    ensures Continues(d, Reopened(d, setup, policy, mergeSize, lastSize), family)
  {
    if setup.merge.Some? {
      OpenMergeContinues(d, setup, policy, mergeSize, lastSize, family);
    } else if Reopens(setup, policy, lastSize) {
      OpenLastContinues(d, setup, policy, mergeSize, lastSize, family);
    } else {
      assert forall n :: n in d ==> SoundArchive(n, d[n], family);
    }
  }

  lemma {:induction false} EntriesWithin(es: seq<Entry>, first: int, last: int)
    requires Within(es, first, last)
    ensures forall e :: e in es && Usable(e) ==> first <= e.id <= last
  {
  }

  // ---------------------------------------------------------------- what the publications are

  ghost predicate PubSound(start: State, pubs: seq<Publication>, family: Family) {
    && (forall i :: 0 <= i < |pubs| ==> SoundArchive(pubs[i].name, pubs[i].entries, family))
    && (forall i, j :: 0 <= i < j < |pubs| ==> Below(pubs[i].name, pubs[j].name))
    && (forall i :: 0 <= i < |pubs| ==> start.end < pubs[i].name.last)
    && (pubs != [] ==> if start.first != 0 then pubs[0].name.first == start.first else start.end < pubs[0].name.first)
  }

  lemma {:induction false} EndsRise(start: State, done: seq<Archive>, n: nat)
    requires n <= |done| && forall i :: 0 <= i < |done| ==> Placed(start, done, i)
    ensures n > 0 ==> start.end < EndOf(start, done[..n])
  {
    if n > 0 {
      EndsRise(start, done, n - 1);
      assert Placed(start, done, n - 1);
      assert done[..n - 1] == done[..n][..n - 1];
    }
  }

  lemma {:induction false} FinalsSound(start: State, s: State, family: Family)
    requires Start(start) && Ranges(start, s) && Single(s, family)
    ensures PubSound(start, Finals(s.done), family)
  {
    FinalsAt(s.done);
    var pubs := Finals(s.done);
    forall i | 0 <= i < |pubs|
      ensures SoundArchive(pubs[i].name, pubs[i].entries, family) && start.end < pubs[i].name.last
    {
      assert Placed(start, s.done, i);
      EndsRise(start, s.done, i);
      assert i == 0 ==> s.done[..i] == [];
    }
    forall i, j | 0 <= i < j < |pubs| ensures Below(pubs[i].name, pubs[j].name) {
      FinalizedRise(start, s.done, i, j);
    }
    if pubs != [] { assert Placed(start, s.done, 0); assert s.done[..0] == []; }
  }

  lemma {:induction false} PubSoundMore(start: State, pubs: seq<Publication>, p: Publication, family: Family)
    requires PubSound(start, pubs, family) && SoundArchive(p.name, p.entries, family) && start.end < p.name.last
    requires forall i :: 0 <= i < |pubs| ==> Below(pubs[i].name, p.name)
    requires pubs == [] ==> if start.first != 0 then p.name.first == start.first else start.end < p.name.first
    ensures PubSound(start, pubs + [p], family)
  {
  }

  lemma {:induction false} PublicationsSound(start: State, s: State, family: Family)
    requires Start(start) && Ranges(start, s) && Single(s, family)
    ensures PubSound(start, Publications(s), family)
  {
    FinalsSound(start, s, family);
    if s.copied && s.first != 0 {
      FinalsAt(s.done);
      EndsRise(start, s.done, |s.done|);
      assert s.done[..|s.done|] == s.done;
      forall i | 0 <= i < |s.done| ensures Below(Finals(s.done)[i].name, Merging(s.first, s.last)) {
        LastFinalIsHighest(start, s.done, i);
      }
      PubSoundMore(start, Finals(s.done), Publication(Merging(s.first, s.last), s.entries), family);
    } else {
      assert Publications(s) == Finals(s.done);
    }
  }

  lemma {:induction false} LastFinalIsHighest(start: State, done: seq<Archive>, i: nat)
    requires i < |done| && Start(start) && forall n :: 0 <= n < |done| ==> Placed(start, done, n)
    ensures done[i].last <= EndOf(start, done)
  {
    if i < |done| - 1 {
      FinalizedRise(start, done, i, |done| - 1);
      assert Placed(start, done, |done| - 1);
    }
  }

  /** The first archive a pass publishes starts with the content it continues. */
  ghost predicate Prefixed(start: State, s: State) {
    if s.done == [] then start.entries <= s.entries else start.entries <= s.done[0].entries
  }

  lemma {:induction false} RunPrefixed(start: State, es: seq<Entry>, policy: Policy)
    requires start.done == []
    ensures Prefixed(start, Run(start, es, false, policy))
  {
    if es != [] {
      RunPrefixed(start, es[..|es| - 1], policy);
    }
  }

  lemma {:induction false} PublicationsInherit(d: Disk, start: State, s: State, family: Family)
    requires Continues(d, start, family) && Prefixed(start, s)
    ensures Inherits(d, start.prior, Publications(s))
  {
    FinalsAt(s.done);
    var pubs := Publications(s);
    if pubs != [] {
      assert start.entries <= pubs[0].entries;
      forall e | e in start.entries ensures e in pubs[0].entries {
        var i :| 0 <= i < |start.entries| && start.entries[i] == e;
        assert pubs[0].entries[i] == e;
      }
    }
  }

  lemma {:induction false} PublicationsAreNew(d: Disk, start: State, pubs: seq<Publication>, family: Family)
    requires Continues(d, start, family) && PubSound(start, pubs, family)
    ensures NewNames(d, pubs)
  {
    forall i, j | 0 <= i < j < |pubs| ensures pubs[i].name != pubs[j].name {
      assert Below(pubs[i].name, pubs[j].name);
      assert SoundArchive(pubs[j].name, pubs[j].entries, family);
    }
  }

  lemma {:induction false} OldBelowNew(d: Disk, start: State, pubs: seq<Publication>, n: Name, j: nat, family: Family)
    requires Sound(d, family) && Continues(d, start, family) && PubSound(start, pubs, family) && j < |pubs|
    requires n in d && !Replaced(start.prior, pubs, n)
    ensures Below(n, pubs[j].name)
  {
    assert SoundArchive(pubs[0].name, pubs[0].entries, family);
    if j > 0 { assert Below(pubs[0].name, pubs[j].name); }
  }

  lemma {:induction false} AfterSound(d: Disk, start: State, pubs: seq<Publication>, r: Disk, family: Family)
    requires Sound(d, family) && Continues(d, start, family) && PubSound(start, pubs, family)
    requires After(d, start.prior, pubs, r)
    ensures Sound(r, family)
  {
    forall n | n in r ensures SoundArchive(n, r[n], family) {
      if Published(pubs, n) {
        var i :| 0 <= i < |pubs| && pubs[i].name == n;
      } else {
        assert n in d && r[n] == d[n];
      }
    }
    forall n, m | n in r && m in r && n != m ensures Apart(n, m) {
      AfterApart(d, start, pubs, r, n, m, family);
    }
  }

  lemma {:induction false} AfterApart(d: Disk, start: State, pubs: seq<Publication>, r: Disk, n: Name, m: Name,
      family: Family)
    requires Sound(d, family) && Continues(d, start, family) && PubSound(start, pubs, family)
    requires After(d, start.prior, pubs, r) && n in r && m in r && n != m
    ensures Apart(n, m)
  {
    if Published(pubs, n) {
      var i :| 0 <= i < |pubs| && pubs[i].name == n;
      if Published(pubs, m) {
        var j :| 0 <= j < |pubs| && pubs[j].name == m;
        if i < j { assert Below(pubs[i].name, pubs[j].name); } else { assert Below(pubs[j].name, pubs[i].name); }
      } else {
        OldBelowNew(d, start, pubs, m, i, family);
      }
    } else if Published(pubs, m) {
      var j :| 0 <= j < |pubs| && pubs[j].name == m;
      OldBelowNew(d, start, pubs, n, j, family);
    }
  }

  // ---------------------------------------------------------------- update files

  /** An update archive: the range in its name, and its entries. */
  datatype Update = Update(first: int, last: int, entries: seq<Entry>)

  /** `updateArchiveActualRange`: 0 when no entry is usable. */
  function ActualEnd(es: seq<Entry>): (n: nat)
    ensures forall e :: e in es && Usable(e) ==> e.id <= n
    ensures n > 0 ==> exists e :: e in es && Usable(e) && e.id == n
  {
    if es == [] then 0
    else
      var n, e := ActualEnd(es[..|es| - 1]), es[|es| - 1];
      assert es == es[..|es| - 1] + [e];
      if Usable(e) && e.id > n then e.id else n
  }

  /** `getUpdates` goes by the name, `refineUpdatesByContents` by the entries. */
  predicate Selected(u: Update, end: int) {
    end < u.last && ActualEnd(u.entries) != 0 && ActualEnd(u.entries) > end
  }

  function Select(updates: seq<Update>, end: int): seq<seq<Entry>> {
    if updates == [] then []
    else
      var u := updates[|updates| - 1];
      Select(updates[..|updates| - 1], end) + if Selected(u, end) then [u.entries] else []
  }

  ghost predicate IsSelected(updates: seq<Update>, e: Entry, end: int) {
    exists i :: 0 <= i < |Select(updates, end)| && e in Select(updates, end)[i]
  }

  /** A book beyond the end reaches the pass exactly when some update that holds it has a name
      whose range ends beyond the end: names that stop short lose books. */
  lemma {:induction false} SelectIs(updates: seq<Update>, end: int, e: Entry)
    requires end >= 0 && Eligible(e, end)
    ensures IsSelected(updates, e, end)
       <==> exists i :: 0 <= i < |updates| && e in updates[i].entries && end < updates[i].last
  {
    if updates != [] {
      var rest, u := updates[..|updates| - 1], updates[|updates| - 1];
      SelectIs(rest, end, e);
      assert e in u.entries && end < u.last ==> Selected(u, end);
      var sel, all := Select(rest, end), Select(updates, end);
      assert Selected(u, end) ==> all[|sel|] == u.entries;
      assert forall i :: 0 <= i < |sel| ==> all[i] == sel[i];
      assert forall i :: 0 <= i < |rest| ==> updates[i] == rest[i];
    }
  }
}
