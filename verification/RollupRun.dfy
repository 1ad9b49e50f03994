/** One run over a family's directory: what it keeps, what it delivers, and crashes. */
module RollupRun {
  import opened Wrappers
  import opened RollupEntries
  import opened RollupPass
  import opened RollupConservation
  import opened RollupRanges
  import opened RollupDisk
  import opened RollupKeys
  import opened RollupSound

  /** The sizes on disk of the merge archive and of the last archive. */
  datatype Sizes = Sizes(merge: nat, last: nat)

  /** The state in which `processUpdates` leaves its loop. */
  function PassState(d: Disk, setup: Setup, updates: seq<seq<Entry>>, policy: Policy, sizes: Sizes): State
    requires SetupIn(d, setup)
  {
    var reopened := Reopens(setup, policy, sizes.last);
    var all := if reopened then [d[setup.last.value]] + updates else updates;
    Pass(Open(d, setup, policy, sizes.merge, sizes.last), all, reopened, policy)
  }

  /** The file operations of `runFamily` from `getUpdates` on. */
  function RunOps(d: Disk, setup: Setup, updates: seq<Update>, policy: Policy, sizes: Sizes): seq<Op>
    requires SetupIn(d, setup)
  {
    var selected := Select(updates, End(setup));
    if selected == [] then [] else Close(PassState(d, setup, selected, policy, sizes))
  }

  ghost predicate UpdatesMade(updates: seq<Update>, family: Family) {
    forall i :: 0 <= i < |updates| ==> AllMade(updates[i].entries, family)
  }

  lemma {:induction false} SelectMade(updates: seq<Update>, end: int, family: Family)
    requires UpdatesMade(updates, family)
    ensures AllMade(InOrder(Select(updates, end)), family)
  {
    if updates != [] {
      var rest, u := updates[..|updates| - 1], updates[|updates| - 1];
      SelectMade(rest, end, family);
      OrderedIsSorted(u.entries);
      if Selected(u, end) {
        var all := Select(updates, end);
        assert all[..|all| - 1] == Select(rest, end);
      } else {
        assert Select(updates, end) == Select(rest, end);
      }
    }
  }

  lemma {:induction false} PassIsRun(d: Disk, setup: Setup, updates: seq<seq<Entry>>, policy: Policy, sizes: Sizes)
    requires Sees(d, setup)
    ensures PassState(d, setup, updates, policy, sizes)
         == Run(Reopened(d, setup, policy, sizes.merge, sizes.last), InOrder(updates), false, policy)
  {
    if Reopens(setup, policy, sizes.last) {
      assert ([d[setup.last.value]] + updates)[1..] == updates;
    }
  }

  /** Everything known about the state after a pass. */
  ghost predicate Passed(d: Disk, start: State, s: State, family: Family) {
    && Continues(d, start, family)
    && Ranges(start, s) && Single(s, family) && Prefixed(start, s) && Logged(start, s)
  }

  lemma {:induction false} PassIsPassed(d: Disk, setup: Setup, updates: seq<Update>, policy: Policy, sizes: Sizes,
      family: Family)
    returns (start: State, s: State)
    requires Sound(d, family) && Sees(d, setup) && UpdatesMade(updates, family)
    ensures start == Reopened(d, setup, policy, sizes.merge, sizes.last) && start.end == End(setup)
    ensures s == Run(start, InOrder(Select(updates, End(setup))), false, policy)
    ensures s == PassState(d, setup, Select(updates, End(setup)), policy, sizes)
    ensures Passed(d, start, s, family)
  {
    var es := InOrder(Select(updates, End(setup)));
    start := Reopened(d, setup, policy, sizes.merge, sizes.last);
    s := Run(start, es, false, policy);
    OpenContinues(d, setup, policy, sizes.merge, sizes.last, family);
    PassIsRun(d, setup, Select(updates, End(setup)), policy, sizes);
    SelectMade(updates, End(setup), family);
    RunPlaced(start, es, policy);
    RunSingle(start, es, family, policy);
    RunPrefixed(start, es, policy);
    assert Finals(start.done) == [];
    RunLogged(start, start, es, false, policy);
    ReopenedEnd(d, setup, policy, sizes);
  }

  lemma {:induction false} ReopenedEnd(d: Disk, setup: Setup, policy: Policy, sizes: Sizes)
    requires Sees(d, setup)
             && (setup.last.Some? ==> Within(d[setup.last.value], setup.last.value.first, setup.last.value.last))
    requires setup.last.Some? ==> setup.last.value.first > 0
    ensures Reopened(d, setup, policy, sizes.merge, sizes.last).end == End(setup)
  {
    if Reopens(setup, policy, sizes.last) {
      var l := setup.last.value;
      OrderedWithin(d[l], l.first, l.last);
      ReopenKeeps(Open(d, setup, policy, sizes.merge, sizes.last), Ordered(d[l]), policy);
    }
  }

  /** The publications of a pass satisfy what crash safety and soundness need. */
  lemma {:induction false} PublicationsFit(d: Disk, start: State, s: State, family: Family)
    requires Sound(d, family) && Passed(d, start, s, family)
    ensures Close(s) == OpsOf(start.prior, Publications(s))
    ensures NewNames(d, Publications(s)) && Inherits(d, start.prior, Publications(s))
    ensures PubSound(start, Publications(s), family)
  {
    CloseLogged(start, s);
    PublicationsSound(start, s, family);
    PublicationsAreNew(d, start, Publications(s), family);
    PublicationsInherit(d, start, s, family);
  }

  /** A run keeps the directory sound, and at no point of it, wherever it is cut off, is a book
      stored before missing from every archive. */
  lemma {:induction false} RunIsSafe(d: Disk, setup: Setup, updates: seq<Update>, policy: Policy, sizes: Sizes,
      family: Family, k: nat)
    requires Sound(d, family) && Sees(d, setup) && UpdatesMade(updates, family)
    requires k <= |RunOps(d, setup, updates, policy, sizes)|
    ensures Sound(ApplyAll(d, RunOps(d, setup, updates, policy, sizes)), family)
    ensures KeepsBooks(d, ApplyAll(d, RunOps(d, setup, updates, policy, sizes)[..k]))
  {
    if Select(updates, End(setup)) != [] {
      var start, s := PassIsPassed(d, setup, updates, policy, sizes, family);
      PublicationsFit(d, start, s, family);
      CrashKeepsBooks(d, start.prior, Publications(s), k);
      OpsPublish(d, start.prior, Publications(s));
      AfterSound(d, start, Publications(s), ApplyAll(d, Close(s)), family);
    }
  }

  // ---------------------------------------------------------------- delivery

  lemma {:induction false} InContents(done: seq<Archive>, e: Entry) returns (i: nat)
    requires e in Contents(done)
    ensures i < |done| && e in done[i].entries
  {
    var n := |done| - 1;
    if e in done[n].entries {
      i := n;
    } else {
      i := InContents(done[..n], e);
    }
  }

  /** Every entry the pass copied is in a published archive. */
  lemma {:induction false} WrittenIsPublished(start: State, s: State, e: Entry) returns (i: nat)
    requires Start(start) && Ranges(start, s)
    requires e in Written(s) && e !in start.entries
    ensures i < |Publications(s)| && e in Publications(s)[i].entries
  {
    FinalsAt(s.done);
    if e in s.entries {
      assert s.copied;
      i := |s.done|;
    } else {
      i := InContents(s.done, e);
      assert Publications(s)[i] == Finals(s.done)[i];
    }
  }

  /** When does a pass deliver: always under a period policy, and under the size policy when
      first occurrences rise. */
  ghost predicate Delivers(policy: Policy, end: int, es: seq<Entry>) {
    policy.ByPeriod? || Rising(end, es)
  }

  lemma {:induction false} Conserved(start: State, es: seq<Entry>, policy: Policy)
    requires Start(start) && Delivers(policy, start.end, es) && KeysNameIDs(es)
    ensures Written(Run(start, es, false, policy)) == Written(start) + Distinct(start.end, es)
  {
    if policy.ByPeriod? {
      PeriodConserves(start, es);
      assert Contents(start.done) + (start.entries + Distinct(start.end, es))
          == Written(start) + Distinct(start.end, es);
    } else {
      RisingConserves(start, es, policy);
    }
  }

  ghost predicate StoredOnce(d: Disk, key: string) {
    exists n :: n in d && KeyCount(key, d[n]) == 1 && forall m :: m in d && m != n ==> KeyCount(key, d[m]) == 0
  }

  lemma {:induction false} StoredKeyIsOnce(d: Disk, family: Family, n: Name, e: Entry)
    requires Sound(d, family) && n in d && e in d[n] && Usable(e)
    ensures StoredOnce(d, e.key)
  {
    CountHolds(e.key, d[n]);
    KeysAreUnique(d, family, e.key, n, n);
    forall m | m in d && m != n ensures KeyCount(e.key, d[m]) == 0 {
      if KeyCount(e.key, d[m]) > 0 { KeysAreUnique(d, family, e.key, n, m); }
    }
  }

  lemma {:induction false} StaysStored(d: Disk, r: Disk, family: Family, key: string)
    requires StoredOnce(d, key) && KeepsBooks(d, r) && Sound(r, family)
    ensures StoredOnce(r, key)
  {
    var n :| n in d && KeyCount(key, d[n]) == 1;
    CountHolds(key, d[n]);
    var e :| e in d[n] && Usable(e) && e.key == key;
    assert Stored(d, e);
    var m :| m in r && e in r[m];
    StoredKeyIsOnce(r, family, m, e);
  }

  lemma {:induction false} KeyIsWritten(start: State, es: seq<Entry>, policy: Policy, key: string) returns (e: Entry)
    requires Start(start) && Delivers(policy, start.end, es) && KeysNameIDs(es) && EligibleKey(es, start.end, key)
    ensures e.key == key && Usable(e) && e.id > start.end && e in Written(Run(start, es, false, policy))
  {
    Conserved(start, es, policy);
    DistinctIsExact(start.end, es);
    var d := Distinct(start.end, es);
    var j :| 0 <= j < |d| && d[j].key == key;
    e := d[j];
    assert (Written(start) + d)[|Written(start)| + j] == e;
  }

  /** Conservation for a whole run: afterwards every eligible key of the updates is stored in
      exactly one archive, once. */
  lemma {:induction false} RunDelivers(d: Disk, setup: Setup, updates: seq<Update>, policy: Policy, sizes: Sizes,
      family: Family, key: string)
    requires Sound(d, family) && Sees(d, setup) && UpdatesMade(updates, family)
    requires Delivers(policy, End(setup), InOrder(Select(updates, End(setup))))
    requires EligibleKey(InOrder(Select(updates, End(setup))), End(setup), key)
    ensures StoredOnce(ApplyAll(d, RunOps(d, setup, updates, policy, sizes)), key)
  {
    var es := InOrder(Select(updates, End(setup)));
    var start, s := PassIsPassed(d, setup, updates, policy, sizes, family);
    SelectMade(updates, End(setup), family);
    FamilyKeysNameIDs(es, family);
    var e := KeyIsWritten(start, es, policy, key);
    assert e !in start.entries;
    var i := WrittenIsPublished(start, s, e);
    PublicationsFit(d, start, s, family);
    PublishedIsStored(d, start, Publications(s), i, e, family);
  }

  lemma {:induction false} PublishedIsStored(d: Disk, start: State, pubs: seq<Publication>, i: nat, e: Entry,
      family: Family)
    requires Sound(d, family) && Continues(d, start, family) && PubSound(start, pubs, family) && NewNames(d, pubs)
    requires i < |pubs| && e in pubs[i].entries && Usable(e)
    ensures StoredOnce(ApplyAll(d, OpsOf(start.prior, pubs)), e.key)
  {
    OpsPublish(d, start.prior, pubs);
    var r := ApplyAll(d, OpsOf(start.prior, pubs));
    AfterSound(d, start, pubs, r, family);
    assert Published(pubs, pubs[i].name);
    StoredKeyIsOnce(r, family, pubs[i].name, e);
  }

  // ---------------------------------------------------------------- updates in id order

  /** No book of an update has a lower id than one of an update before it. */
  ghost predicate UpdatesInIDOrder(updates: seq<Update>) {
    forall i, j, e, f ::
      0 <= i < j < |updates| && e in updates[i].entries && f in updates[j].entries && Usable(e) && Usable(f) ==>
        e.id <= f.id
  }

  lemma {:induction false} SelectFrom(updates: seq<Update>, end: int, k: nat) returns (i: nat)
    requires k < |Select(updates, end)|
    ensures i < |updates| && Select(updates, end)[k] == updates[i].entries
  {
    var n := |updates| - 1;
    if k < |Select(updates[..n], end)| {
      i := SelectFrom(updates[..n], end, k);
    } else {
      i := n;
    }
  }

  lemma {:induction false} OrderSnoc(rest: seq<seq<Entry>>, last: seq<Entry>)
    requires InIDOrder(rest)
    requires forall i, e, f :: 0 <= i < |rest| && e in rest[i] && f in last && Usable(e) && Usable(f) ==> e.id <= f.id
    ensures InIDOrder(rest + [last])
  {
    hide Usable;
    var all := rest + [last];
    forall i, j, e, f | 0 <= i < j < |all| && e in all[i] && f in all[j] && Usable(e) && Usable(f)
      ensures e.id <= f.id
    {
      assert all[i] == rest[i];
      if j < |rest| { assert all[j] == rest[j]; }
    }
  }

  /** What is selected keeps the order. */
  lemma {:induction false} SelectKeepsOrder(updates: seq<Update>, end: int)
    requires UpdatesInIDOrder(updates)
    ensures InIDOrder(Select(updates, end))
  {
    hide Usable;
    if updates != [] {
      var n := |updates| - 1;
      var rest := Select(updates[..n], end);
      SelectKeepsOrder(updates[..n], end);
      forall i, e, f | 0 <= i < |rest| && e in rest[i] && f in updates[n].entries && Usable(e) && Usable(f)
        ensures e.id <= f.id
      {
        var k := SelectFrom(updates[..n], end, i);
        assert e in updates[k].entries;
      }
      OrderSnoc(rest, updates[n].entries);
    }
  }

  /** fb2 updates in id order: under every policy, and across any number of finalizations on the way,
      every key beyond the end that a selected update holds is afterwards stored in exactly one
      archive, once. */
  lemma {:induction false} FB2InOrderDelivers(d: Disk, setup: Setup, updates: seq<Update>, policy: Policy,
      sizes: Sizes, key: string)
    requires Sound(d, FB2) && Sees(d, setup) && UpdatesMade(updates, FB2) && UpdatesInIDOrder(updates)
    requires EligibleKey(InOrder(Select(updates, End(setup))), End(setup), key)
    ensures StoredOnce(ApplyAll(d, RunOps(d, setup, updates, policy, sizes)), key)
  {
    var es := InOrder(Select(updates, End(setup)));
    SelectMade(updates, End(setup), FB2);
    FB2IDsNameKeys(es);
    SelectKeepsOrder(updates, End(setup));
    OrderAscends(Select(updates, End(setup)));
    AscendingRises(End(setup), es);
    RunDelivers(d, setup, updates, policy, sizes, FB2, key);
  }

  lemma {:induction false} BookReachesPass(updates: seq<Update>, end: int, i: nat, e: Entry)
    requires end >= 0 && i < |updates| && e in updates[i].entries && Eligible(e, end) && end < updates[i].last
    ensures EligibleKey(InOrder(Select(updates, end)), end, e.key)
  {
    var es := InOrder(Select(updates, end));
    SelectIs(updates, end, e);
    InOrderFrom(Select(updates, end), e);
    var k :| 0 <= k < |es| && es[k] == e;
  }

  /** The same for a book of an update: it is stored if the update's name reaches beyond the end. */
  lemma {:induction false} FB2BookIsDelivered(d: Disk, setup: Setup, updates: seq<Update>, policy: Policy,
      sizes: Sizes, i: nat, e: Entry)
    requires Sound(d, FB2) && Sees(d, setup) && UpdatesMade(updates, FB2) && UpdatesInIDOrder(updates)
    requires i < |updates| && e in updates[i].entries && Eligible(e, End(setup)) && End(setup) < updates[i].last
    ensures StoredOnce(ApplyAll(d, RunOps(d, setup, updates, policy, sizes)), e.key)
  {
    EndIsNatural(d, setup, FB2);
    BookReachesPass(updates, End(setup), i, e);
    FB2InOrderDelivers(d, setup, updates, policy, sizes, e.key);
  }

  lemma {:induction false} EndIsNatural(d: Disk, setup: Setup, family: Family)
    requires Sound(d, family) && Sees(d, setup)
    ensures End(setup) >= 0
  {
    assert setup.merge.Some? ==> SoundArchive(setup.merge.value, d[setup.merge.value], family);
    assert setup.last.Some? ==> SoundArchive(setup.last.value, d[setup.last.value], family);
  }
}
