/** Delivery book by book: what is stored afterwards, and how often, in terms of file names. */
module RollupBooks {
  import opened Wrappers
  import opened RollupEntries
  import opened RollupPass
  import opened RollupConservation
  import opened RollupDisk
  import opened RollupKeys
  import opened RollupSound
  import opened RollupRun

  /** A usable file of the book stands at a place of an archive. */
  ghost predicate StandsAt(d: Disk, e: Entry, family: Family, n: Name, i: nat) {
    n in d && i < |d[n]| && d[n][i].size > 0 && d[n][i].id > 0 && SameBook(d[n][i], e, family)
  }

  /** The book is stored at one place in all archives. */
  ghost predicate BookStoredOnce(d: Disk, e: Entry, family: Family) {
    exists n, i :: StandsAt(d, e, family, n, i) && forall m, j :: StandsAt(d, e, family, m, j) ==> m == n && j == i
  }

  lemma {:induction false} CountAt(key: string, es: seq<Entry>, i: nat)
    requires i < |es| && Usable(es[i]) && es[i].key == key
    ensures KeyCount(key, es) > 0
  {
    CountHolds(key, es);
    assert es[i] in es;
  }

  lemma {:induction false} CountTwice(key: string, es: seq<Entry>, i: nat, j: nat)
    requires i < j < |es| && Usable(es[i]) && es[i].key == key && Usable(es[j]) && es[j].key == key
    ensures KeyCount(key, es) > 1
  {
    if i == 0 {
      CountAt(key, es[1..], j - 1);
    } else {
      CountTwice(key, es[1..], i - 1, j - 1);
    }
  }

  lemma {:induction false} StandsByKey(d: Disk, e: Entry, family: Family, n: Name, i: nat)
    requires Sound(d, family) && Made(e, family) && n in d && i < |d[n]|
    ensures StandsAt(d, e, family, n, i) <==> Usable(d[n][i]) && d[n][i].key == e.key
  {
    assert SoundArchive(n, d[n], family) && d[n][i] in d[n];
    KeyNamesBook(d[n][i], e, family);
  }

  lemma {:induction false} KeyStands(key: string, es: seq<Entry>) returns (i: nat)
    requires KeyCount(key, es) > 0
    ensures i < |es| && Usable(es[i]) && es[i].key == key
  {
    CountHolds(key, es);
    var e :| e in es && Usable(e) && e.key == key;
    i :| 0 <= i < |es| && es[i] == e;
  }

  lemma {:induction false} StoredOnceIsBook(d: Disk, e: Entry, family: Family)
    requires Sound(d, family) && Made(e, family) && StoredOnce(d, e.key)
    ensures BookStoredOnce(d, e, family)
  {
    hide Sound, Made, SameBook, StandsAt, Usable;
    var n :| n in d && KeyCount(e.key, d[n]) == 1 && forall m :: m in d && m != n ==> KeyCount(e.key, d[m]) == 0;
    var i := KeyStands(e.key, d[n]);
    StandsByKey(d, e, family, n, i);
    forall m, j | StandsAt(d, e, family, m, j) ensures m == n && j == i {
      StandsIn(d, e, family, m, j);
      StandsByKey(d, e, family, m, j);
      CountAt(e.key, d[m], j);
      if j < i { CountTwice(e.key, d[n], j, i); } else if i < j { CountTwice(e.key, d[n], i, j); }
    }
  }

  lemma {:induction false} StandsIn(d: Disk, e: Entry, family: Family, n: Name, i: nat)
    requires StandsAt(d, e, family, n, i)
    ensures n in d && i < |d[n]|
  {
  }

  /** Every usable book beyond the end, in an update whose name reaches beyond it, is afterwards stored in exactly one
      archive, once, under a name of the same book: always under a period policy, and under the size policy when
      first occurrences rise. */
  lemma {:induction false} BookIsDelivered(d: Disk, setup: Setup, updates: seq<Update>, policy: Policy, sizes: Sizes,
      family: Family, u: nat, e: Entry)
    requires Sound(d, family) && Sees(d, setup) && UpdatesMade(updates, family)
    requires Delivers(policy, End(setup), InOrder(Select(updates, End(setup))))
    requires u < |updates| && e in updates[u].entries && End(setup) < updates[u].last
    requires e.size > 0 && e.id > 0 && e.id > End(setup)
    ensures BookStoredOnce(ApplyAll(d, RunOps(d, setup, updates, policy, sizes)), e, family)
  {
    hide Sound, StoredOnce, BookStoredOnce, RunOps, Delivers;
    EndIsNatural(d, setup, family);
    BookReachesPass(updates, End(setup), u, e);
    RunDelivers(d, setup, updates, policy, sizes, family, e.key);
    var ops := RunOps(d, setup, updates, policy, sizes);
    RunIsSafe(d, setup, updates, policy, sizes, family, |ops|);
    assert Made(e, family);
    StoredOnceIsBook(ApplyAll(d, ops), e, family);
  }

  /** fb2 books of updates in id order are delivered under every policy. */
  lemma {:induction false} FB2BookIsDelivered(d: Disk, setup: Setup, updates: seq<Update>, policy: Policy, sizes: Sizes,
      u: nat, e: Entry)
    requires Sound(d, FB2) && Sees(d, setup) && UpdatesMade(updates, FB2) && UpdatesInIDOrder(updates)
    requires u < |updates| && e in updates[u].entries && End(setup) < updates[u].last
    requires e.size > 0 && e.id > 0 && e.id > End(setup)
    ensures BookStoredOnce(ApplyAll(d, RunOps(d, setup, updates, policy, sizes)), e, FB2)
  {
    hide Sound, StoredOnce, BookStoredOnce, RunOps;
    RollupRun.FB2BookIsDelivered(d, setup, updates, policy, sizes, u, e);
    var ops := RunOps(d, setup, updates, policy, sizes);
    RunIsSafe(d, setup, updates, policy, sizes, FB2, |ops|);
    assert Made(e, FB2);
    StoredOnceIsBook(ApplyAll(d, ops), e, FB2);
  }
}
